# A verified model of the tunnel

This project models a WireGuard-style tunnel - the Noise IK handshake, the transport sessions with their
replay window, the byte framing, the relay loop that joins them and the client's route handling - and proves
what two relays guarantee on a network that sees, keeps, reorders, replays and forges datagrams.
`dafny verify dfyconfig.toml` checks it.

## How it is modelled

**Bytes.** A buffer is a sequence of octets. An octet is a plain byte, or byte *i* of the output of a symbolic
computation (`Octets.Term`): a hash, a keyed hash, a public key, a shared secret, a ciphertext, a random value.
HMAC, the key derivation, the nonce, the handshake messages and the datagrams are built from these octets byte
by byte, so framing and cryptography are one model. Two outputs are equal exactly when the computations are. A
number is read from plain octets only: a symbolic octet where the program reads an index, a counter or a length
makes the message malformed.

**Two layers.** What the program does in place is written in place: buffers are arrays, `ReplayWindow`,
`TransportKeys`, `Session`, `TimestampGuard`, `Handshake`, `Loop`, `Host` and `ChangeSet` are classes, and loops are
loops; the handshake writes its keys into the live session's key object. Each
method is proved to compute a function of the old state (`Noise.ReadInitiation`, `Relay.OnDatagram`, ...). The
theorems are about those functions and about runs of them.

**The network** (`Knowledge`, `Tunnel`). It sees every datagram either side hands to its socket, and may deliver to
either side, at any time, any byte string it can compute from what it has seen: plain bytes, spliced bytes, hashes,
MACs, ciphertexts and key exchanges of its own. It may know the two static public keys or not (`leak`). It never
has to open a ciphertext: `Guarantees.OpeningTeachesNothing` proves that opening would teach it nothing, and
`Compromise.OpeningStillTeachesNothing` proves the same of a network that holds both static private keys. Packets
that come from a TUN device are arbitrary, so the network may have chosen them.

**Explicit assumptions.** The primitives are ideal, which the datatype of terms builds in: hashes and MACs are free of
collisions, X25519 gives one secret per unordered pair of private keys, a ciphertext opens only under its own key,
nonce and additional data, and no input is recovered from an output. Every ephemeral key is a fresh random value. The
initiator's real-time clock does not run backwards. Each side is one process with the other's static public key
configured. Random indices and the monotonic clock are arbitrary, and so is whether the socket takes a datagram.
Once the static keys are known, packets from a TUN device are ones the network can compute: it may by then be the
other end of a session and read them.

**Main results.** For every run and every state of it:

- `NoiseReference`: the two messages, the keys and what is accepted are exactly those of Noise_IKpsk2, written down
  independently from the framework's own definition.
- `Guarantees.Agreement`: an active initiator session is matched by the responder's active session, keys crossed.
- `Indices.IndexAgreementExactly`: the session indices match in every run if and only if the network does not know
  the initiator's public key. Indices are outside the Noise transcript; only mac1 covers them.
- `Indices.OfferIndexExactly`: the responder remembers the index it was sent in every run if and only if the network
  does not know the responder's public key.
- `Nonces.NoNonceReuse`, `Guarantees.NonceUniqueness`: no two ciphertexts share a key and a nonce, handshake fields
  included.
- `Guarantees.DeliveredOnceAndAuthentic`, `Guarantees.DeliveredArePackets`: everything written to a TUN device is an
  IPv4 packet of exactly its own length that the other side sealed, and no sealed packet is written twice.
- `RelayRuns.RetriesAreApart`, `RelayCounters.CountersAreExact`: at most one initiation a second, and every counter is
  the number of events it stands for, over any run.
- `Guarantees.KeysStaySecret`: transport keys once in use stay unknown to the network for the rest of the run.
- `Compromise.ForwardSecrecy`: so they do if both static private keys become known and the network then computes,
  opens and impersonates with them in any continuation.
- `RelayRuns.Erasure`: rejected datagrams change nothing but counters in any run, and nothing is sent in return.
- `Recovery.Reconnects`, `Recovery.Recovers`: from every reachable state in which the initiator has no session, three
  moves connect the two sides and two more carry any packet in either direction.
- `Routes.TeardownExactly`, `Routes.InstallClientRoutes`: exactly which failures make the server unreachable.
- `Indices.HonestRunConnects`: the statements above are not about an empty set of runs.

## Model

| member | source | states |
|---|---|---|
| `Guarantees.Agreement` | src/relay.cpp:116-259 | in every state of every run, despite retries that replace the pending handshake and late or forged responses, an active initiator implies an active responder with the same two keys crossed, and crossed indices unless the initiator's public key leaked |
| `Guarantees.NonceUniqueness` | src/session.cpp:76-117 | over a whole run, across any number of handshakes, no pair of send key and nonce is sealed twice by either side |
| `Guarantees.DeliveredOnceAndAuthentic` | src/session.cpp:119-158 | no pair of key and counter is delivered twice, and each delivered packet is what the peer sealed under that pair, cut where its header says |
| `Guarantees.DeliveredArePackets` | src/session.cpp:146-157 | in every run each packet written to a TUN device is an IPv4 packet of exactly its own length, the front of what the peer sealed, and the peer's packet itself when that was one |
| `Guarantees.KeysStaySecret` | src/noise.cpp:195-462 | the network cannot compute either key of a session that was ever in use, neither then nor at any later point of the run |
| `Compromise.ForwardSecrecy` | src/noise.cpp:357-381 | a key in use before both static private keys became known stays unknown to a network that has them, in any continuation in which it computes and delivers with them |
| `Compromise.OpeningStillTeachesNothing` | src/crypto.cpp:100-110 | in such a continuation whatever ciphertext the network can open, it knew the plaintext of |
| `Compromise.OpeningIsNoNews` | src/noise.cpp:218-246 | of every ciphertext seen before the leak the key stays unknown or the plaintext could be computed anyway |
| `Compromise.StepIsHarmless` | src/relay.cpp:116-315 | in any well-formed state, after however much impersonation, a step shows only public keys, MACs and ciphertexts of what the network knows |
| `Guarantees.CiphertextKeyUnknown` | src/noise.cpp:218-246 | every ciphertext that travels, of either handshake message or of a packet, is under a key the network does not know |
| `Guarantees.OpeningTeachesNothing` | src/crypto.cpp:100-110 | whatever ciphertext the network could open, it already knew the plaintext |
| `Nonces.NoNonceReuse` | src/noise.cpp:218-246 | of all ciphertexts that travel, handshake fields and packets, no two different ones are under the same key and nonce |
| `Nonces.OriginsDiffer` | src/noise.cpp:365-381 | any two ciphertexts either side made, of whatever kind and handshake, that share key and nonce are the same ciphertext |
| `Indices.SenderIndexIsMalleable` | src/noise.cpp:396-456 | any accepted response is accepted with any other sender index once mac1 is recomputed, with the same keys and the other index |
| `Indices.IndicesCanBeForged` | src/noise.cpp:109-118 | a network that knows the initiator's public key has a run in which the two sides disagree on an index |
| `Indices.IndexAgreementExactly` | src/noise.cpp:406-413 | the indices cross in every run if and only if the network does not know the initiator's public key |
| `Indices.OfferIndexIsMalleable` | src/noise.cpp:260-329 | any accepted initiation is accepted with any other sender index once mac1 is recomputed, and that index is remembered |
| `Indices.OfferIndexCanBeForged` | src/noise.cpp:109-118 | a network that knows the responder's public key has a run in which the responder remembers an index nobody sent |
| `Indices.OfferIndexExactly` | src/noise.cpp:270-275 | in every run every response remembers the index of the initiation it answers, if and only if the network does not know the responder's public key |
| `Indices.HonestRunConnects` | src/relay.cpp:201-315 | whatever the network knows, some run ends with both sessions active and crossed, a packet sealed and the same packet delivered |
| `Recovery.Reconnects` | src/relay.cpp:116-259 | from every reachable state in which the initiator has a peer and no session, whatever the network did, a retry, its delivery and the delivery of the answer end with crossed fresh sessions |
| `Recovery.Recovers` | src/relay.cpp:155-315 | two further moves carry any well-formed packet that fits both MTUs, in either direction |
| `Recovery.RetryIsFresh` | src/noise.cpp:318-322 | in every reachable state an initiation stamped 2^24 ns after all earlier ones is fresh to the responder |
| `Safety.KeepsInv` | src/relay.cpp:155-315 | every step of either relay keeps the whole protocol invariant, whatever the network delivers |
| `Safety.NoAnswerWhileActive` | src/noise.cpp:318-322 | once the initiator's session is up, no initiation that was ever written is fresh for the responder |
| `Safety.OnlyLastAnswers` | src/noise.cpp:396-462 | a response to the initiator's latest initiation is the responder's latest response |
| `Safety.NewSealed` | src/session.cpp:86-113 | sealing under the next counter keeps the history sound: pairs of key and counter distinct, all below the next counter, deliveries accounted for |
| `Safety.FreshSession` | src/relay.cpp:217-223 | a responder that starts a new session keeps that history sound although its counters restart |
| `Authenticity.InitiationAuthentic` | src/noise.cpp:260-329 | an accepted initiation carries the chain, the ephemeral key and the stamp of one the initiator wrote |
| `Authenticity.ConfirmationAuthentic` | src/noise.cpp:435-449 | a confirmation that opens was made by the responder from the same transcript |
| `Authenticity.ResponseAuthentic` | src/noise.cpp:396-462 | an accepted response gives the initiator the keys of a response the responder wrote, crossed |
| `Authenticity.ResponseIndices` | src/noise.cpp:406-413 | when the network lacks the initiator's public key, the indices of an accepted response are the responder's, crossed |
| `Authenticity.InitiationIndex` | src/noise.cpp:270-275 | when the network lacks the responder's public key, the index taken from an accepted initiation is that of the initiation the initiator wrote |
| `Authenticity.PacketAuthentic` | src/session.cpp:127-144 | what verifies under an unknown key was sealed under it with that very counter |
| `Authenticity.FreshKeys` | src/noise.cpp:348-381 | responses with different ephemeral keys give different transport keys in both directions |
| `Authenticity.DirectionsNeverMeet` | src/noise.cpp:379-384 | no key of one direction is ever a key of the other |
| `Exchange.Chain3Injective` | src/noise.cpp:201-252 | chaining key and transcript hash after the first message determine the ephemeral key and the stamp |
| `Exchange.FinishHashInjective` | src/noise.cpp:348-377 | confirmation key and transcript hash determine the chain before, the ephemeral key and both secrets mixed in |
| `Exchange.FinishUnknown` | src/noise.cpp:357-381 | unless the network knows both the chaining key and the ephemeral secret, it knows none of the keys derived from them |
| `Exchange.OfferShows` | src/noise.cpp:205-248 | an initiation shows the network an ephemeral public key, two ciphertexts and a MAC, nothing else |
| `Exchange.AnswerShows` | src/noise.cpp:343-392 | a response shows an ephemeral public key, one ciphertext and a MAC |
| `NoiseReference.InitiationIsNoise` | src/noise.cpp:195-258 | what the initiator writes between its index and its MACs is the first message of Noise_IKpsk2, and the chain it keeps is the framework's |
| `NoiseReference.ResponseIsNoise` | src/noise.cpp:331-394 | the response is the second message, under an all-zero preshared key, and the responder receives under the first key of the split and sends under the second |
| `NoiseReference.FieldsAcceptedExactly` | src/noise.cpp:277-316 | of the three fields of an initiation the responder accepts exactly those that are the first message from the one static key it was configured with |
| `NoiseReference.InitiationAcceptedExactly` | src/noise.cpp:260-329 | an initiation is accepted if and only if its 148 bytes are headed right, bytes 116 to 131 are the mac1 of the bytes before them, its fields are accepted and its stamp is fresh; index and ephemeral key are taken from bytes 4 and 8 on |
| `NoiseReference.ResponseAcceptedExactly` | src/noise.cpp:396-462 | a response is accepted if and only if its 92 bytes are headed right, it is addressed to this handshake, its mac1 is right and it is the second message from the initiator's chain; the initiator then sends under the first key of the split |
| `Noise.KeyAgreement` | src/noise.cpp:195-462 | for all keys, ephemerals, indices and fresh stamps the four-step exchange succeeds, chains agree after the first message, keys and indices end crossed, and the two directions differ |
| `Noise.InitiationIsRead` | src/noise.cpp:260-329 | the responder reads back chain, ephemeral key, index and stamp exactly as written |
| `Noise.ResponseIsRead` | src/noise.cpp:396-462 | from equal chains the initiator reads the response and holds the responder's keys crossed |
| `Noise.InitiationOnTheWire` | src/noise.cpp:195-258 | the initiation's bytes decode to the intended fields, and mac1 over everything before it verifies under the recipient's key |
| `Noise.ResponseOnTheWire` | src/noise.cpp:331-394 | the same of the response |
| `Noise.Mac2IsIgnored` | src/noise.cpp:109-118 | neither reader's result depends on the mac2 bytes |
| `Noise.AcceptedIsAnswerable` | src/noise.cpp:357-363 | answering an accepted initiation cannot fail |
| `HandshakeObject.MixHash` | src/noise.cpp:80-82 | in place, the hash becomes the hash of itself and the data |
| `HandshakeObject.Begin` | src/noise.cpp:72-78 | the two buffers hold the protocol's initial chain |
| `HandshakeObject.MixDh` | src/noise.cpp:84-92 | the chaining key is replaced by the first derivation from itself, or untouched when the point is rejected |
| `HandshakeObject.MixDhKey` | src/noise.cpp:94-103 | as above, with a second key |
| `HandshakeObject.WriteMacs` | src/noise.cpp:54-63 | mac1 covers exactly the bytes before it, mac2 is zero, the rest of the buffer is untouched |
| `HandshakeObject.WriteFields` | src/noise.cpp:201-246 | the buffer computation gives the fields and the chain of the specification |
| `HandshakeObject.ReadFields` | src/noise.cpp:277-316 | the buffer computation opens exactly what the specification opens |
| `HandshakeObject.FinishFrom` | src/noise.cpp:415-449 | the end of the exchange is computed on copies of the chain |
| `HandshakeObject.DeriveKeys` | src/noise.cpp:379-384 | the two transport keys are derived straight into the buffers they are used from |
| `HandshakeObject.Handshake.WriteInitiation` | src/noise.cpp:195-258 | message and new state are the specification's; on failure the object is as it was |
| `HandshakeObject.Handshake.ReadInitiation` | src/noise.cpp:260-329 | accepts exactly what the specification accepts; a rejected message changes neither the object nor the guard |
| `HandshakeObject.Handshake.WriteResponse` | src/noise.cpp:331-394 | message and keys are the specification's, the keys written into the caller's key object; on failure neither the handshake nor that object changes |
| `HandshakeObject.Handshake.ReadResponse` | src/noise.cpp:396-462 | accepts exactly what the specification accepts and fills the caller's key object; a rejected response leaves both objects as they were |
| `RelayLoop.Loop.TryHandshake` | src/relay.cpp:116-137 | the in-place handshake start is the step function: at most one initiation per retry interval, replacing the pending handshake |
| `RelayLoop.Loop.PacketFromTun` | src/relay.cpp:155-185 | the in-place TUN branch is the step function, whatever the reused buffer held |
| `RelayLoop.Loop.InitiationFromNet` | src/relay.cpp:201-238 | the initiation branch is the step function; the session's key object is overwritten only past the last failure |
| `RelayLoop.Loop.ResponseFromNet` | src/relay.cpp:240-259 | the response branch is the step function; a rejected response leaves the session's keys and the pending handshake alone |
| `RelayLoop.Loop.TransportFromNet` | src/relay.cpp:267-315 | the transport branch is the step function, opening in the receive buffer |
| `RelayLoop.Loop.DatagramFromNet` | src/relay.cpp:186-315 | receiving into the one-spare-byte buffer and dispatching is the step function |
| `RelayRuns.RetriesAreApart` | src/relay.cpp:116-125 | over any run on a clock that does not run backwards, two events that write an initiation are at least 1000000000 ns apart |
| `RelayRuns.InitiatesExactly` | src/relay.cpp:116-137 | a step writes an initiation if and only if a packet finds an initiator with a peer, no session, no attempt in the last second of the 64-bit clock and a usable peer key; the time of the attempt is remembered |
| `RelayRuns.FirstPacketInitiates` | src/relay.cpp:112-125 | the first packet starts a handshake whatever the clock says |
| `RelayCounters.StepCounts` | src/relay.cpp:116-315 | counter by counter, exactly when a step moves it, each by one |
| `RelayCounters.CountersAreExact` | src/relay.cpp:116-315 | after any run each counter has grown by the number of events it stands for |
| `RelayCounters.TotalsAreExact` | src/relay.cpp:179-314 | after any run the byte totals are the bytes of the datagrams taken by the socket and of the packets delivered, and the endpoint counter the number of moves of the peer |
| `RelayRuns.BooksBalance` | src/relay.cpp:116-315 | after any run the outcome counters sum to packets read, datagrams received and initiations written |
| `RelayRuns.TransportIsToldApart` | src/relay.cpp:272-314 | replays, forgeries, keepalives and packets are counted apart, by freshness of the counter and by what the peer sealed; only a packet is written to the TUN device |
| `RelayRuns.MalformedInnerIsDropped` | src/session.cpp:146-157 | a fresh authentic datagram around something that is not an IPv4 packet is dropped and counted as not authentic, delivers nothing and moves no peer, but uses its counter up |
| `RelayRuns.StepFollows` | src/relay.cpp:223-236 | a step moves the peer exactly on an authenticating datagram, and sends only to the peer |
| `RelayRuns.PeerIsLastAuthenticated` | src/relay.cpp:297-305 | over any run the peer is the source of the last authenticating datagram; an initiator's never changes |
| `RelayRuns.SendsOnlyToAuthenticated` | src/relay.cpp:158-184 | over any run everything sent goes to the source of the last authenticating datagram |
| `RelayRuns.RejectionLeavesNoTrace` | src/relay.cpp:190-295 | a datagram that is not genuine changes counters only, and nothing is sent or delivered in return |
| `RelayRuns.Erasure` | src/relay.cpp:155-315 | any run of packets and datagrams ends, and sends and delivers on the way, as it would without the datagrams that were not genuine |
| `RelayRuns.RejectionsCancelNothing` | src/noise.h:118-124 | after any number of rejected messages the genuine one has the same effect and the same reply |
| `Progress.SealedFits` | src/relay.cpp:171-184 | for every packet up to the MTU sealing fails only past 2^64 - 2^13 - 1 messages, and the result fits a same-MTU peer; a packet of exactly the MTU attains the bound |
| `Progress.OversizeIsDetected` | src/relay.cpp:97-99 | a datagram counts as oversize if and only if it is longer than the longest legal one; any other is received whole |
| `Progress.GenuineIsDelivered` | src/relay.cpp:267-315 | a genuine datagram, not accepted before and inside the window, is delivered byte for byte |
| `Progress.RetryIsAnswered` | src/relay.cpp:120-124 | an initiation stamped 2^24 ns after the last accepted one is accepted and answered, so one a retry interval later is |
| `Sessions.RoundTrip` | src/session.cpp:82-158 | seal, decode and open at the peer give the packet back with padding removed when the counter is fresh, and nothing when it is not |
| `Sessions.TrimPadded` | src/session.cpp:146-157 | cutting the padded packet at its own length restores it |
| `Sessions.TrimmedExactly` | src/session.cpp:146-157 | a plaintext is cut to a packet if and only if both are empty or the packet is its front as far as its IPv4 header says |
| `Sessions.VerifiedExactly` | src/session.cpp:119-136 | what verifies is exactly what the peer sealed, in a multiple of 16 bytes and without additional data, under a fresh counter |
| `Sessions.OpenedIsPacket` | src/session.cpp:146-157 | whatever is opened is empty or an IPv4 packet of exactly its own length, from the front of the plaintext |
| `Sessions.DatagramLayout` | src/session.cpp:93-116 | the datagram byte by byte: type 4, the peer's index, the counter, and the packet followed by the fewest zeros to a multiple of 16, sealed without additional data |
| `Sessions.NewSession` | src/session.cpp:76-80 | a session just begun seals under counter 0 next and refuses no counter below the limit |
| `Sessions.Session.Activate` | src/session.cpp:76-80 | both counters restart under the keys just filled |
| `Sessions.Session.Seal` | src/session.cpp:82-117 | the buffer holds the sealed datagram of its previous contents, the counter advances by one, nothing else changes; it fails exactly when inactive, exhausted or short of buffer, and then changes nothing |
| `Sessions.Session.ReplayAcceptable` | src/session.h:104-106 | answers by the set of accepted counters |
| `Sessions.Session.Open` | src/session.cpp:119-158 | opens in place, marks the counter exactly when fresh and verified, and returns the trimmed packet |
| `Window.ReplayWindow.IsAcceptable` | src/session.cpp:26-43 | the circular bitmap answers exactly as the set of all accepted counters |
| `Window.ReplayWindow.Accept` | src/session.cpp:45-72 | a counter inside or above the window joins the set; a stale one corrupts the bitmap unless the live counter sharing its slot was accepted already |
| `Window.SlideEnds` | src/session.cpp:65-67 | the clearing loop ends if and only if the counter is not the greatest 64-bit number |
| `Window.ReplayWindow.Slide` | src/session.cpp:60-67 | clearing counter by counter never overflows and disturbs no live slot |
| `Window.ReplayWindow.SetSlot` | src/session.cpp:16-19 | sets one slot of the ring and no other |
| `Window.ReplayWindow.ClearSlot` | src/session.cpp:21-24 | clears one slot of the ring and no other |
| `Window.SetClearBit` | src/session.cpp:11-24 | setting or clearing a bit of a word affects that bit only |
| `Window.AcceptableByHighest` | src/session.cpp:26-43 | the set form agrees with the test against the highest counter, with the limits 2^64 - 2^13 - 1 and 8192 |
| `Window.AcceptableAtFirst` | src/session.cpp:26-32 | before anything was accepted exactly the counters below 2^64 - 2^13 - 1 are acceptable |
| `Wire.DecodeEncode` | src/wire.cpp:75-206 | decoding an encoded message gives it back, for all four types |
| `Wire.EncodeDecode` | src/wire.cpp:75-206 | encoding a decoded message gives the bytes back |
| `Wire.DecodeAcceptsExactlyEncodings` | src/wire.cpp:75-142 | the decoder accepts exactly the image of the encoder, and encodings are unambiguous |
| `Wire.Layout` | src/wire.cpp:144-206 | where every field of every message stands, offset by offset |
| `Wire.Parse` | src/wire.cpp:75-142 | the decoder with its byte-accumulating reads computes the decoding function |
| `Wire.ReadLittle` | src/wire.cpp:16-22 | the accumulating loop reads the little-endian number |
| `Octets.Digits` | src/wire.cpp:11-34 | what four bytes stand for in either byte order, digit by digit |
| `Octets.Halves` | src/wire.cpp:24-34 | what eight bytes stand for, in terms of two fours |
| `Wire.WriteLittle` | src/wire.cpp:24-34 | writes the little-endian bytes and nothing else |
| `Wire.EncodeInitiation` | src/wire.cpp:144-156 | writes the message at the front and nothing after it, or nothing at all |
| `Wire.EncodeResponse` | src/wire.cpp:158-170 | the same of a response |
| `Wire.EncodeCookieReply` | src/wire.cpp:172-181 | the same of a cookie reply |
| `Wire.EncodeTransport` | src/wire.cpp:183-194 | the same of a transport message; one shorter than a tag is refused |
| `Wire.WriteHeader` | src/wire.cpp:196-206 | the same of a transport header |
| `Wire.MacsPartition` | src/wire.cpp:208-238 | mac1's input, mac1 and mac2 partition a handshake message, and are the decoded fields |
| `Wire.ReplaceMac2` | src/wire.cpp:58-71 | replacing mac2 changes the decoded mac2 only, and not mac1's input |
| `Wire.PaddingIsLeast` | src/wire.h:107-115 | the padded length is the least multiple of 16 not below the length, and monotone |
| `Wire.InnerLengthReadsHeader` | src/wire.cpp:240-271 | of a packet built with a version 4 header the length read is the length written, exactly when header and packet fit |
| `Wire.InnerLengthNeedsHeader` | src/wire.cpp:240-271 | whatever has a length is such a packet |
| `Wire.InnerLengthPadded` | src/wire.cpp:260-270 | padding does not change the length |
| `Wire.InnerLengthOfPrefix` | src/wire.cpp:260-270 | the header claims the same length of the packet alone |
| `Crypto.KdfInto` | src/crypto.cpp:196-243 | with the output aliasing the chaining key, the outputs are the HKDF-expand chain; fewer outputs are a prefix of more |
| `Crypto.HmacInto` | src/crypto.cpp:153-192 | the two-pad computation is HMAC over the hash, for keys of any length |
| `Crypto.HmacIs` | src/crypto.cpp:153-192 | HMAC with a 32-byte key is the hash of the 0x5c block and the hash of the 0x36 block and the input; a key longer than a block is hashed first |
| `Crypto.KdfIs` | src/crypto.cpp:201-227 | the three outputs written out: each round is keyed by the extract and fed the previous output and the round number |
| `Octets.XorIsBitwise` | src/crypto.cpp:170-172 | each bit of the exclusive or is set exactly when the operands differ there |
| `Crypto.KdfInjective` | src/crypto.cpp:201-227 | an output determines the chaining key, the input and which output it is |
| `Crypto.HmacInjective` | src/crypto.cpp:153-192 | HMAC determines key and input, for keys of one length up to a block |
| `Crypto.NonceInjective` | src/crypto.cpp:41-50 | different 64-bit counters give different nonces |
| `Crypto.NonceLayout` | src/crypto.cpp:41-50 | the nonce is four zero bytes and then the counter, little-endian |
| `Crypto.SealInjective` | src/crypto.cpp:88-110 | equal ciphertexts have the same key, counter, plaintext and additional data |
| `Crypto.OpenSeal` | src/crypto.cpp:88-110 | opening what was sealed gives the plaintext |
| `Crypto.DhAgrees` | src/crypto.cpp:82-86 | both ends compute the same secret |
| `Timestamp.TimestampInto` | src/crypto.cpp:272-291 | the byte loops write the TAI64N stamp |
| `Timestamp.StampValue` | src/crypto.cpp:272-291 | a stamp's first eight bytes are 2^62 + 10 plus the seconds, its last four the nanoseconds rounded down to a multiple of 2^24, both big-endian |
| `Timestamp.TimestampAfter` | src/crypto.cpp:293-303 | the loop decides byte-lexicographic order |
| `Timestamp.AfterIsNumeric` | src/crypto.cpp:293-303 | that order is numeric order of the big-endian values |
| `Timestamp.StampsFollowTheClock` | src/crypto.cpp:272-291 | a clock that does not run backwards gives no earlier stamp |
| `Timestamp.StampsSeparate` | src/crypto.cpp:279-283 | readings 2^24 ns apart give strictly ordered stamps |
| `Timestamp.StampsCoincide` | src/crypto.cpp:279-283 | two readings give the same stamp if and only if they lie in the same second and the same 2^24 ns granule of it |
| `Timestamp.TimestampGuard.Accept` | src/noise.cpp:183-190 | records and accepts exactly a strictly greater stamp; a refusal changes nothing |
| `Timestamp.AcceptedIncrease` | src/noise.cpp:183-190 | over any run the accepted stamps strictly increase |
| `Timestamp.GuardIsMaximum` | src/noise.cpp:183-190 | after any run the guard stands at the greatest stamp it was shown |
| `Routes.BestIsSelected` | src/netcfg.cpp:301-328 | the lookup is longest-prefix matching |
| `Routes.ServerHop` | src/netcfg.cpp:434-452 | with any subset of the three routes in, the server keeps its next hop unless the host route is out, the covering half is in and leads elsewhere, and no route to it was more specific than a half; then it does not |
| `Routes.DefaultIsUnused` | src/netcfg.h:123-126 | with all three in, no destination depends on the default route |
| `Routes.FullTunnel` | src/netcfg.cpp:434-452 | with all three in, the server keeps its next hop, destinations with a route more specific than a half keep theirs, and everything else goes into the tunnel |
| `Routes.TeardownExactly` | src/netcfg.cpp:361-365 | last-first teardown keeps the server reachable in every state unless the host route goes while the covering half stays; the table is restored exactly when every undo took |
| `Routes.PartialTeardown` | src/netcfg.cpp:348-365 | the same as an if-and-only-if for unwinding a failed install that had put in the host route and the lower half |
| `Routes.HostTeardown` | src/netcfg.cpp:348-365 | unwinding an install that had put in the host route alone never loses the server, and restores the table exactly when its undo took |
| `Routes.TeardownCanCapture` | src/netcfg.cpp:348-359 | a concrete table on which one failed undo sends the server's traffic into the tunnel, in both unwindings |
| `Routes.TeardownStates` | src/netcfg.cpp:348-365 | teardown leaves exactly the routes whose undo failed |
| `Routes.ChangeSet.AddChange` | src/netcfg.cpp:330-341 | a change that did not take is not recorded for undoing |
| `Routes.ChangeSet.UndoAll` | src/netcfg.cpp:361-365 | runs every undo last-first whatever becomes of each |
| `Routes.InstallClientRoutes` | src/netcfg.cpp:434-459 | for every outcome of every command: installs all three or leaves exactly the routes whose undo failed, restores the table exactly when the undos took, and keeps the server's next hop in every state with one exactly stated exception |

## Where the code and its comments differ

- src/session.h:89-90 says a failed seal means the counter is exhausted. The code also fails for an inactive session
  and for a short buffer. The model follows the code; `Progress.SealedFits` proves the comment for the relay's calls.
- src/netcfg.cpp:348-359 swallows a failed undo. With the host route's undo succeeding after a half's undo failed, the
  server is then reached through the tunnel; `Routes.TeardownExactly`, `Routes.PartialTeardown` and
  `Routes.InstallClientRoutes` give the exact conditions and `Routes.TeardownCanCapture` an input.
- src/session.cpp:45-72 has no guard of its own. A stale counter marks another counter's slot, and for counter 2^64-1 the
  clearing loop never ends if it is entered (`Window.SlideEnds`). `Session::open` calls it with neither: it checks
  the counter first.

## Left out

- epoll, signals, sockets, the TUN device and process spawning: a step is one packet or one datagram with what the
  operating system supplied as a parameter.
- The inside of BLAKE2s, X25519 and ChaCha20-Poly1305, and base64: symbolic, with the real output lengths. The points
  X25519 rejects are represented by the all-zero one; that rejection depends on the point alone is kept. Clamping of
  private keys is not modelled.
- Symbolic octets in number fields: a datagram that carries such an octet where an index, a counter, a type or an IPv4
  length is read is malformed in the model; the program would read some number there.
- The fields a handshake object keeps between its calls are values; the buffers it mixes in are arrays.
- Window.ReplayWindow.Accept: says nothing of counter 2^64-1 when the window has to slide to it, because the loop does
  not end there.
- Bitmap words are numbers with bit operations defined by halving, not machine words.
- Lengths near 2^64, where the padding arithmetic would wrap: no buffer is that long.
- Wiping is modelled as writing zeros where an object outlives the wipe; locking and constant time are not modelled.
- Restarts: each relay is one process, so a responder's guard and sessions are never lost.
- HmacInjective: keys of different lengths are left out, because HMAC pads a short key with zeros.
- Liveness under loss beyond `Progress` and `Recovery`: that a connecting continuation exists, not that it happens.
- netcfg beyond the client's routes: iptables and ip6tables rules, sysctls, subnet parsing, release and move of a
  change set.
- Cookie replies beyond their encoding, mac2 verification, rekeying and keepalive sending: the program does not have
  them yet.
- Command line, key files and statistics printing: straight-line code with no property beyond its own text.
