# axsh: a verified model

This project models axsh, a remote shell transport whose traffic is signed but not encrypted, in Dafny 4.11, and
proves what its layers promise, alone and together. Check it with
`dafny verify dfyconfig.toml --resource-limit 2000000 --verification-time-limit 0`.

The layers, from the bottom:

- **Framing** (`Fcs*.dfy`, `Hdlc.dfy`, `FrameReader.dfy`, `FrameStreams.dfy`): byte stuffing, the 16-bit FCS and the
  incremental reader. The FCS is a bit-vector loop; it is shown to be polynomial division and to detect odd, burst and
  double-bit errors. The reader runs against a *script*, the poll results that the stream below has in store: a byte,
  Pending, the end or an error, in any order. A script that has run out is pending.
- **Packets and signatures** (`Packets.dfy`, `PacketLaws.dfy`, `Layouts.dfy`, `Signatures.dfy`, `VerifierRuns.dfy`).
  Signatures are ideal without being axioms: a *table* of triples (key, message, signature) is what the library
  accepts.
- **Payload streams** (`Transport.dfy`, `TransportLaws.dfy`, `TransportRuns.dfy`, `FaithfulStreams.dfy`): buffers,
  offsets and counters, as a class whose methods equal functions on values, and runs of arbitrary operations over
  those functions.
- **Handshakes** (`Handshake.dfy`, `HandshakeLaws.dfy`, `HandshakeProgram.dfy`, `Completion.dfy`, `Progress.dfy`): one
  step per frame, whole runs over a byte stream, the two procedures, equal to those runs, and how two such runs get
  each other done.
- **The world** (`World.dfy`, `WorldSteps.dfy`, `Agreement.dfy`, `WorldDelivery.dfy`, `FrameByFrame.dfy`,
  `HonestRun.dfy`, `HelloOnly.dfy`): any number of client and server sessions, in any interleaving, while the network
  hands any frame and any bytes to any of them. The table gains a triple when a session signs; an event may also forge
  any triple, except under a key that only sessions use and over a message that none of them signed. A second
  signature over a signed message is allowed. New packet keys and server challenges differ from those seen before.
  SHA-256 is an arbitrary function: agreement on keys is stated as agreement on digests. A key bundle is *trusted*
  when one of the components that the mode calls for is used by sessions only, so with both ML-DSA-44 and Ed25519
  called for, either of the two may be in other hands.
- **Key text forms** (`Base64.dfy`, `KnownHosts.dfy`, `AuthorizedKeys.dfy`, `KeyTexts.dfy`), and what authorized keys
  come to (`DigestCheck.dfy`).

What does not hold, and exactly when it does:

- A write whose frame exceeds 65536 bytes is accepted, yet neither it nor anything after it is ever read
  (`FaithfulStreams.LongWriteIsLost`, `FaithfulStreams.EverythingThatFitsArrives`).
- Appending a known host with an empty key leaves a file that no longer loads (`KnownHosts.AppendExactly`,
  `KnownHosts.EmptyKeyBreaksTheFile`).
- When it accepts a hello, a server has agreement with its client on what the client's signature covers, the challenge
  and the client's hello, and on nothing else: the rest of the ServerHello and the mode may differ
  (`Agreement.ServersAgree`, `HelloOnly.OnlyTheHelloIsAgreed`). It has full agreement, mode included, once that client
  has completed (`Agreement.AuthorIsPartner`), so from the first payload or keepalive that it accepts
  (`Agreement.AuthorIsEstablished`, `Agreement.ServersAgreeOnceSpokenTo`); provided that the server key which the
  client accepted is trusted, without which it need not (`HelloOnly.ForeignKeyMisleads`).
- PROTOCOL.md has the server compare the digest of the authorized key with the one in the hello. The code looks the
  key up by that digest and compares nothing, so a key held under a digest not its own is accepted
  (`DigestCheck.AcceptsExactly`, `DigestCheck.MismatchIsAccepted`). The comparison holds for all steps of a server iff
  each usable key that it was given is held under its own digest (`DigestCheck.ComparedExactly`), which the loader of
  `axshd` sees to (`DigestCheck.LoadedKeysAreCompared`).
- Zero bytes put in front of a frame's content are detected unless there are a multiple of 32767 of them
  (`FcsPreset.LeadingZerosExactly`).
- Two flipped bits are detected unless they are a multiple of 32767 bit positions apart, which takes at least 4096
  bytes, the FCS included (`FcsOrder.TwoBitErrorsExactly`).

## Model

| member | source | states |
|---|---|---|
| Fcs.UpdateFcs | src/hdlc.rs:194-204 | the bit loop is eight applications of one shift step to the register xor the byte, the reflected division step |
| FcsLaws.ShiftsInjective | src/hdlc.rs:194-204 | register steps are injective: no two registers merge |
| FcsLaws.RegisterAppend | src/hdlc.rs:188-192 | folding over a concatenation is folding over the parts |
| FcsLaws.AcceptsIsResidue | src/hdlc.rs:109-113 | the FCS comparison of `decode` succeeds iff folding over all bytes, FCS included, leaves the residue 0xf0b8 of RFC 1662, Appendix C.2 |
| FcsErrors.RegisterIsFeed | src/hdlc.rs:188-204 | the byte fold is a bit-serial register fed least significant bit first |
| FcsErrors.FeedLinear | src/hdlc.rs:194-204 | the register is linear over exclusive or, at every length |
| FcsErrors.UndetectedExactly | src/hdlc.rs:109-113 | two contents of equal length, one accepted: the other is accepted iff their bit difference drives a zero register to zero |
| FcsErrors.OddErrorsAreDetected | src/hdlc.rs:109-113 | an odd number of differing bits is never accepted, at any length |
| FcsErrors.BurstErrorsAreDetected | src/hdlc.rs:109-113 | differences within 16 consecutive bits are never accepted, at any length |
| FcsOrder.PowerOfPeriod | src/hdlc.rs:194-204 | 32767 steps of the register from x return to it, by repeated squaring |
| FcsOrder.OrderOfX | src/hdlc.rs:194-204 | no smaller positive number of steps does: the order of x is exactly 32767 |
| FcsOrder.TwoBitErrorsExactly | src/hdlc.rs:109-113 | two differing bits, at any length: accepted iff they are a multiple of 32767 positions apart |
| FcsOrder.TwoBitErrorsAreDetected | src/hdlc.rs:109-113 | two differing bits fewer than 32767 positions apart are never accepted |
| FcsPolynomial.RegisterDivides | src/hdlc.rs:188-204 | the loop is polynomial division: message = generator times quotient + register, over GF(2) |
| FcsPolynomial.RemainderIsUnique | src/hdlc.rs:188-204 | the remainder of degree below 16 modulo x^16+x^12+x^5+1 is unique, so the register is the remainder |
| FcsPolynomial.UndetectedIsDivisible | src/hdlc.rs:109-113 | a difference goes undetected iff its polynomial is a multiple of the generator |
| FcsPreset.FrameFcsDivides | src/hdlc.rs:10-10 | the complement of a frame's FCS is the remainder of the payload times x^16 plus the preset 1 + x + ... + x^15 above it |
| FcsPreset.EmptyFrame | src/hdlc.rs:72-83 | the frame of nothing is 7e 00 00 7e, and decodes |
| FcsPreset.PresetReturnsExactly | src/hdlc.rs:188-204 | the preset comes back after a number of register steps iff that is a multiple of 32767 |
| FcsPreset.LeadingZerosExactly | src/hdlc.rs:109-113 | zero bytes in front of accepted content are accepted iff there are a multiple of 32767 of them |
| Hdlc.EscapeInto | src/hdlc.rs:165-175 | the loop appends exactly the stuffing of the data |
| Hdlc.Encode | src/hdlc.rs:72-83 | the frame is flag, stuffed payload and FCS, flag |
| Hdlc.Decode | src/hdlc.rs:85-114 | the loop, all error cases and the FCS check compute `Decoded` |
| Hdlc.UnstuffExactly | src/hdlc.rs:92-108 | the interior yields a content iff it spells it, any byte but a flag plain or escaped, with no bare flag or dangling escape |
| Hdlc.StuffSpells | src/hdlc.rs:165-175 | stuffing spells its argument |
| Hdlc.StuffIsShortest | src/hdlc.rs:165-175 | and no spelling is shorter |
| Hdlc.AcceptsExactly | src/hdlc.rs:109-113 | the FCS check passes with payload p iff the content is p and its FCS |
| Hdlc.DecodeExactly | src/hdlc.rs:85-114 | `decode` returns p iff the length is 4 to 65536, both flags are there, and the interior spells p and its FCS, however much the sender escaped |
| Hdlc.EncodedLength | src/hdlc.rs:74-83 | encoded length is payload + 4 + escaped bytes |
| Hdlc.RoundTripExactly | src/hdlc.rs:74-114 | `decode(encode(p)) == p` iff the encoded length is at most 65536; otherwise it is refused as too large |
| Hdlc.RoundTripBounds | src/hdlc.rs:74-114 | always up to 32765 bytes, never above 65532 |
| Hdlc.EncodedInjective | src/hdlc.rs:74-83 | `encode` is injective on all payloads |
| Hdlc.StuffHasNoFlag | src/hdlc.rs:165-175 | no flag inside a frame |
| Hdlc.UnstuffErrsExactly | src/hdlc.rs:92-108 | a flag is unexpected iff all before it spells something, an escape dangles iff it comes last after such |
| Hdlc.DecodeErrsExactly | src/hdlc.rs:85-114 | every error of `decode`, by the frame alone |
| Layouts.StuffingLayout | src/hdlc.rs:165-175 | 7e goes out as 7d 5e, 7d as 7d 5d, any other byte as itself |
| FrameReader.AsyncFrameReader.PollReadFrame | src/hdlc.rs:28-69 | one poll of the incremental reader against any script of poll results: outcome, new state and what is left of the script |
| FrameReader.PushFrameByte | src/hdlc.rs:177-186 | a byte is refused, and the frame kept, at 65536 |
| FrameReader.ReadFrameAsync | src/hdlc.rs:152-163 | a fresh reader polled until it is ready |
| FrameReader.ReadFrameBlocking | src/hdlc.rs:117-149 | the blocking reader is the same splitter with state for one call |
| FrameStreams.PolledIsRun | src/hdlc.rs:28-69 | calling the reader again and again refines the pure per-poll splitter |
| FrameStreams.PendingIsInvisible | src/hdlc.rs:33-37 | Pending anywhere changes no result and no state |
| FrameStreams.WovenFramesAreRead | src/hdlc.rs:28-69 | flag-free noise interleaved with frames yields exactly those frames in order, for any placement of Pending |
| FrameStreams.EncodedIsDelimited | src/hdlc.rs:74-83 | every encoding is such a frame when it fits |
| FrameStreams.ReadFrameKeepsValid | src/hdlc.rs:52-65 | at most 65536 bytes are held; a yielded frame has both flags and none between |
| FrameStreams.OverflowIsForever | src/hdlc.rs:61-65 | after an overflow no frame and no clean end is ever yielded |
| FrameStreams.TooLongMeansOverflowed | src/hdlc.rs:177-186 | the too-long error is that overflow |
| FrameStreams.BlockingAgrees | src/hdlc.rs:117-149 | repeated blocking reads yield the same frames and clean ends and the same first error |
| TransportLaws.FrameStops | src/hdlc.rs:28-69 | every outcome of the reader, by the one poll at which it stops |
| Signatures.ConnPublicKeyRoundTrip | src/lib.rs:500-527 | the public key bundle decodes to what was encoded, and only from that |
| Signatures.VerificationFormsAgree | src/lib.rs:445-496 | the three verification forms succeed together, iff the bundle decodes and every component signature of the mode verifies the same message |
| Signatures.SignaturesVerify | src/lib.rs:310-366 | `sign`, `sign_prefixed` and `sign_detached` satisfy their counterparts |
| Layouts.EndorsedExactly | src/lib.rs:445-496 | which triples make an endorsement: 2420 bytes of ML-DSA-44 and 64 of Ed25519, or 64 of Ed25519 alone |
| Layouts.VerifyExactly | src/lib.rs:453-496 | verification with and without a prefix, on any bytes: what is accepted and what it yields |
| Layouts.DetachedExactly | src/lib.rs:446-450 | the detached form, at any signature length: signature and data are split again at the mode's length |
| Layouts.BundleLayout | src/lib.rs:500-527 | a key bundle byte by byte |
| Layouts.PacketInputLayout | src/lib.rs:167-172 | a signed packet input is the counter's eight digits to the base 256, most significant first, then the payload |
| Signatures.PacketSignatureInputInjective | src/lib.rs:167-172 | signed packet inputs determine counter and payload |
| Signatures.PacketSign.Sign | src/lib.rs:200-208 | the library's signature over the counter and the data, then the data; the counter moves by one |
| Signatures.PacketVerify.Verify | src/lib.rs:402-425 | the verifier as a state machine: length, idle time, signature at the counter |
| VerifierRuns.VerifyTakesNext | src/lib.rs:402-425 | one presentation: at most the next message is accepted and a refusal changes nothing |
| VerifierRuns.AcceptedInOrder | src/lib.rs:402-425 | over any sequence of presentations: signer messages in order, no gap, no repeat |
| VerifierRuns.IdleTimeIsBounded | src/lib.rs:402-425 | from each acceptance to the next accepted check, at most an hour |
| VerifierRuns.IdleIsForever | src/lib.rs:402-425 | once idle, refused for ever |
| Packets.SerializePacketSigned | src/packet.rs:198-205 | only a payload is signed with the packet key, over its counter and data, and moves that counter |
| Packets.DeserializePacket | src/packet.rs:207-242 | parsing any wire, with its effect on the verifier |
| Layouts.ServerHelloLayout | src/packet.rs:319-342 | a ServerHello wire byte by byte: type, magic, version, challenge, digest, packet key |
| Layouts.ClientHelloLayout | src/packet.rs:361-369 | a ClientHello wire byte by byte |
| Layouts.ClientInputLayout | src/packet.rs:266-277 | what a ClientHello signature covers, byte by byte |
| Layouts.UnsignedLayout | src/packet.rs:158-185 | the types of the other unsigned kinds; ClientHello and Payload are refused |
| Layouts.PayloadLayout | src/packet.rs:280-289 | a payload wire |
| Layouts.ConnSignedExactly | src/packet.rs:187-195 | only a ClientHello is signed with the ConnSign key, over challenge and body |
| Layouts.DeserializeErrsExactly | src/packet.rs:207-242 | why a wire is no packet, by type, length and what the caller brings |
| Layouts.ServerHelloErrsExactly | src/packet.rs:335-359 | why a ServerHello body is refused |
| PacketLaws.ClientHelloExactly | src/packet.rs:361-382 | a ClientHello body decodes from its encoding and from nothing else |
| PacketLaws.ServerHelloExactly | src/packet.rs:319-359 | the same for ServerHello, magic and version included |
| PacketLaws.UnsignedExactly | src/packet.rs:158-242 | for the four unsigned kinds a wire parses to p iff p serialises to that wire |
| PacketLaws.ClientHelloPacketExactly | src/packet.rs:187-242 | a ClientHello parses iff its signature endorses challenge and body |
| PacketLaws.ClientHelloWireIsCanonical | src/packet.rs:224-255 | an accepted ClientHello wire has the mode's exact length and form |
| PacketLaws.PayloadExactly | src/packet.rs:280-305 | a payload parses iff the verifier is not idle and stands at the signed counter |
| PacketLaws.WireLengths | src/packet.rs:319-369 | 72, 80, and 215 or 2635 bytes |
| PacketLaws.ClientHelloInputInjective | src/packet.rs:266-277 | what a ClientHello signature covers determines the server challenge and the hello |
| PacketLaws.TranscriptInjective | src/client.rs:224-226 | a transcript splits at byte 78 and determines both hellos and the client signature |
| PacketLaws.SignedInputsDisjoint | src/packet.rs:266-277 | a ClientHello input is never a transcript |
| Transport.PayloadStream.PollFillReadBuffer | src/transport.rs:106-137 | the fill loop, against any script of polls |
| Transport.PayloadStream.PollReadPayload | src/transport.rs:50-72 | a read with any room: what is copied, new state, what is left |
| Transport.PayloadStream.PollDrainWriteBuffer | src/transport.rs:139-157 | the drain loop over any script of write results |
| Transport.PayloadStream.PollWritePayload | src/transport.rs:74-91 | drain, then queue one frame signed with the next counter; an empty write queues nothing |
| Transport.PayloadStream.PollQueueKeepalive | src/transport.rs:159-168 | drain, then queue an empty signed payload |
| Transport.PayloadStream.PollFlushPayload | src/transport.rs:93-96 | drain, then flush the stream below |
| Transport.PayloadStream.PollShutdownPayload | src/transport.rs:98-104 | drain, then shut down the stream below |
| TransportLaws.ReadExactly | src/transport.rs:50-72 | a read copies min(room, unread) bytes from the front and keeps the rest; with nothing unread it fills once and copies from that; never more than the room |
| TransportLaws.ReadsFitTheirRoom | src/transport.rs:50-72 | over any run no operation delivers more than its room |
| TransportLaws.ReceiveExactly | src/transport.rs:119-136 | a frame is taken iff it is a payload signed at the counter within the hour; empty ones are skipped, any other frame is an error that changes nothing |
| TransportLaws.FillStops | src/transport.rs:106-137 | every outcome of a fill, by the one poll at which it stops |
| TransportLaws.DrainExactly | src/transport.rs:139-157 | a drain sends as many bytes as the answers allow and takes no answer more or less; pending or failed only at an answer that says so |
| TransportLaws.WriteExactly | src/transport.rs:74-91 | nothing is signed until the drain has finished; then one frame of the whole payload is queued at the current counter |
| TransportLaws.KeepaliveExactly | src/transport.rs:159-168 | the same for a keepalive |
| TransportLaws.FlushExactly | src/transport.rs:93-104 | when the drain has finished, exactly one answer more is taken, and it decides the outcome of a flush or a shutdown |
| TransportRuns.DrainConserves | src/transport.rs:139-157 | bytes sent and bytes left are the bytes there were, in order |
| TransportRuns.NothingIsLostOnTheWayOut | src/transport.rs:74-168 | after any operations: sent and undrained bytes are the frames of what was signed, the i-th with counter i modulo 2^64 |
| TransportRuns.StepKeepsReadSide | src/transport.rs:50-137 | any operation on any bytes keeps: delivered and unread are the first so many signed payloads |
| TransportRuns.OnlySignedBytesAreDelivered | src/transport.rs:50-137 | on any stream, over any run, delivered is a prefix of what the peer signed, even when reads go on after errors |
| TransportRuns.ZeroBytesMeanTheEnd | src/transport.rs:50-72 | a successful zero-byte read with room happens iff all was handed out and the stream ended between frames |
| TransportRuns.IdleStreamsDeliverNoMore | src/transport.rs:106-137 | once a stream is idle, no run of operations on any bytes has it accept or deliver more than what was buffered |
| FaithfulStreams.NextFrame | src/hdlc.rs:28-69 | on a faithful stream the next frame comes out whole, or too long |
| FaithfulStreams.FaithfulFill | src/transport.rs:106-137 | a fill on a faithful stream takes frames in order and fails only after an overflow; only frames that have arrived need have been signed |
| FaithfulStreams.EverythingThatFitsArrives | src/transport.rs:50-168 | when all bytes have arrived and been taken: delivered and unread are exactly the payloads before the first frame over 65536 bytes, all of them if there is none |
| FaithfulStreams.EverythingWrittenArrives | src/transport.rs:50-168 | writes of at most 32700 bytes by a drained peer all arrive, with no error or end reported |
| FaithfulStreams.WritesThatFit | src/transport.rs:84-90 | up to 32700 bytes always fit in a frame, above 65467 never |
| FaithfulStreams.LongWriteIsLost | src/transport.rs:74-91 | a write above 65467 bytes is accepted, and neither it nor anything after it is ever delivered |
| WorldDelivery.SessionsDeliver | src/transport.rs:50-168 | among the sessions of the world, reading and writing in any order while others sign and forge: over a faithful channel the reader has a prefix of what the writer wrote, and all that fits once everything has come |
| HandshakeProgram.WriteAll | src/client.rs:209 | write_all over any script of short writes, Pending and errors |
| HandshakeProgram.WriteFrame | src/client.rs:208-210 | a frame written and flushed |
| TransportLaws.SendAllExactly | src/client.rs:209 | write_all sends as many bytes as the answers allow, waits out Pending and stops at a failure |
| TransportLaws.SendFrameExactly | src/client.rs:208-210 | a frame is out only when all its bytes were taken and then a flush succeeded |
| HandshakeProgram.ConnectClient | src/client.rs:94-243 | the client procedure, which has the library sign challenge and hello, equals the run of per-frame steps: reads, writes, flushes, refusals and the payload stream it makes |
| HandshakeProgram.AcceptClient | src/server.rs:53-159 | the server procedure, which has the library sign the transcript, the same |
| HandshakeProgram.ServeLoop | src/server.rs:79-158 | the loop awaiting a request or a hello |
| HandshakeLaws.ServerStepExactly | src/server.rs:79-136 | for every frame: the server waits on iff it is the one-byte request, which it answers with its key; it is done iff it is a hello it can accept, which it answers with its signature; else it refuses and says nothing |
| HandshakeLaws.BadHelloEndsTheRun | src/server.rs:98-120 | a hello that is not authorised or not endorsed ends the run refused, nothing more being sent |
| HandshakeLaws.RefusalEndsTheRun | src/server.rs:129-134 | so does any other frame that is neither |
| HandshakeLaws.StartServerExactly | src/server.rs:58-77 | the ServerHello goes out before anything is read |
| HandshakeLaws.FirstStepExactly | src/client.rs:104-163 | for every frame: what a client makes of its first one |
| HandshakeLaws.PubkeyStepExactly | src/client.rs:144-210 | and of the one after its request |
| HandshakeLaws.CompleteStepExactly | src/client.rs:212-237 | it completes iff it is a ServerComplete that endorses both wires as they went over the stream |
| WorldSteps.ClientStepFacts | src/client.rs:104-237 | what a client has looked up, checked, had accepted and signed when it moves on |
| WorldSteps.ServerStepFacts | src/server.rs:80-129 | what a server has checked when it accepts |
| WorldSteps.StepKeepsInv | src/client.rs:94-243 | every event, forged signatures and arbitrary bytes included, keeps the invariants of all sessions |
| WorldSteps.RunKeepsInv | src/server.rs:53-159 | so does every run |
| Agreement.MessageInjective | src/packet.rs:187-195 | what a session signs determines its role and all hello fields |
| Agreement.ClientHasPartner | src/client.rs:168-237 | a client that completed under a trusted key has a server session that shares its transcript, and its application accepted the key |
| Agreement.PartnerIsUnique | src/server.rs:58-71 | a client session has at most one partner, trusted or not |
| Agreement.PartnersAgree | src/client.rs:168-242 | partners have each other's packet keys and key digests, and each has read a prefix of what the other wrote |
| Agreement.ClientsAgree | src/client.rs:168-242 | a client completed under a trusted key has exactly one partner server session: same transcript, challenges, packet keys, digests and mode; each side has read a prefix of what the other wrote |
| Agreement.ServersAgree | src/server.rs:98-158 | an accepted hello under a trusted key was signed by exactly one client session for this challenge; the server has read a prefix of what that session wrote |
| Agreement.AuthorIsEstablished | src/client.rs:212-242 | once the server has accepted a payload or a keepalive, the session that signed the hello has completed |
| Agreement.AuthorIsPartner | src/server.rs:98-158 | of a client completed under a trusted key: a server session is its partner iff it accepted the hello that the client signed for that server's challenge |
| Agreement.ServersAgreeOnceSpokenTo | src/server.rs:98-158 | from the first payload it accepts, a server has one completed client; under a trusted server key the two are each other's only partner, with both hellos and the mode in common, and each has read a prefix of what the other wrote |
| HelloOnly.OnlyTheHelloIsAgreed | src/packet.rs:266-277 | before that: for any honest keys, a reachable world where the client of an accepted hello has another ServerHello, key digest and packet key included, and may be in the stronger mode |
| HelloOnly.ForeignKeyMisleads | src/client.rs:168-237 | a reachable world where the server has been spoken to and the client, completed under a key that is not honest, has another ServerHello |
| Agreement.NoHelloServesTwice | src/packet.rs:187-195 | no signed hello is accepted by two server sessions |
| Agreement.RolesNeverMix | src/server.rs:141-147 | what one role signs is never what the other signs, even under one key |
| Completion.AwaitsNext | src/hdlc.rs:152-163 | a fresh reader takes exactly the next frame, wherever Pending falls |
| Progress.ClientProgress | src/client.rs:104-242 | with any number of the server's frames there, and a part of the next, the client has sent its own frames up to that number and waits, or is done |
| Progress.ServerProgress | src/server.rs:53-158 | the same of the server, which sends its first frame unasked |
| Progress.ClientHasNoForesight | src/client.rs:104-242 | what a client has sent does not depend on what is still to arrive |
| Progress.ServerHasNoForesight | src/server.rs:76-158 | nor what a server has sent |
| Progress.TurnsComplete | src/client.rs:104-242 | two ends that take turns from empty channels are done after two rounds, or three if the key is asked for, and wait before that |
| Progress.NoDeadlock | src/server.rs:76-158 | whatever the order in which bytes came: once nothing is under way both are done |
| Progress.NoScheduleDeadlocks | src/client.rs:104-242 | from empty channels, bytes brought in any portions and any order but no sooner than sent, and each signature accepted in time: at every point both are done or something sent is still to be brought |
| Progress.BothComplete | src/server.rs:76-158 | both complete, hold each other's packet keys with both counters at 0, have sent what the other was given, and leave what follows unread |
| Progress.FirstPayloadsArrive | src/client.rs:212-242 | payload frames sent right behind ServerComplete are read in full |
| HonestRun.HonestEndsConnect | src/client.rs:94-243 | the world of sessions has runs, by either path, in which two honest ends become partners |
| HonestRun.HonestEndsTalk | src/transport.rs:50-168 | and one in which a payload then reaches the other's application |
| FrameByFrame.ClientProcedureAgrees | src/client.rs:104-242 | a client procedure that completes stands where the session does at which its frames come in, so that session's agreement is its own |
| FrameByFrame.ServerProcedureAgrees | src/server.rs:80-158 | the same of the server procedure |
| Base64.EncodeBase64 | src/base64.rs:18-40 | the chunk loop computes `Encoded` |
| Base64.DecodeBase64 | src/base64.rs:42-77 | the chunk loop with its early exits computes `Decoded` |
| Base64.SymbolExactly | src/base64.rs:6-15 | characters and six-bit values correspond one to one |
| Base64.RoundTrip | src/base64.rs:17-77 | decode inverts encode on all byte strings |
| Base64.DecodesExactly | src/base64.rs:42-77 | accepted is exactly the padded grammar of RFC 4648, section 4 |
| Base64.DecodeThenEncode | src/base64.rs:17-77 | encode after decode clears the unused bits of the last symbol (RFC 4648, section 3.5) and changes nothing else |
| KeyTexts.ChunkIsRadix | src/base64.rs:18-40 | three bytes and four symbols are the same number, to the base 256 and to the base 64, with the symbols' ASCII codes |
| KeyTexts.ChunkAt | src/base64.rs:18-40 | the j-th four symbols encode the j-th three bytes |
| KeyTexts.FingerprintExactly | src/lib.rs:143-154 | "SHA256:" and the encoding as far as its pads |
| Base64.FingerprintInjective | src/lib.rs:151-154 | fingerprints without their pads are injective |
| AuthorizedKeys.LoadAuthorizedKeys | src/bin/axshd.rs:58-88 | every authorized key is stored under its own digest |
| KeyTexts.AuthorizedKeysExactly | src/bin/axshd.rs:58-88 | the file loads iff each line that is no comment spells a key, no two of one digest, and then to exactly those keys |
| DigestCheck.AcceptsExactly | src/server.rs:98-125 | a hello is accepted iff its digest is a key of the map, the key found there endorses it for this challenge, and the transcript can be signed; and what the server then holds |
| DigestCheck.MismatchIsAccepted | src/server.rs:101-120 | the counterexample: a hello that claims the digest under which another key is held is accepted |
| DigestCheck.ComparedExactly | src/server.rs:101-120 | over all frames and tables, accepted keys have the claimed digest iff each usable key in the map is held under its own |
| DigestCheck.LoadedKeysAreCompared | src/bin/axshd.rs:79-85 | so with keys loaded from a file they always have |
| KnownHosts.KnownHostsFile.LoadKnownHosts | src/bin/axsh.rs:57-91 | the loading loop computes `Load`, malformed lines and duplicates being errors |
| KeyTexts.KnownHostsExactly | src/bin/axsh.rs:57-91 | the file loads iff each line that is no comment spells a host, no two the same, and then to exactly those hosts and keys |
| KeyTexts.SpeltExactly | src/bin/axsh.rs:68-73 | which lines are comments, and what the others spell in either file |
| KeyTexts.ParseHostExactly | src/lib.rs:130-141 | a host is what stands before the first space, if it is not empty and a key follows |
| KeyTexts.ParseKeyExactly | src/lib.rs:113-125 | a key is its kind, a space and an encoding that is not empty |
| KnownHosts.LinesStep | src/bin/axsh.rs:68-68 | a line that ends in a newline is the first line, less a final return, and the rest follows |
| KnownHosts.OneUnendedLine | src/bin/axsh.rs:68-68 | a last line without one is a line as it stands |
| KeyTexts.TrimExactly | src/bin/axsh.rs:69-69 | what trimming leaves |
| KeyTexts.AppendedLayout | src/bin/axsh.rs:94-126 | the file after an append, character by character |
| KnownHosts.KnownHostsFile.AppendKnownHost | src/bin/axsh.rs:94-126 | the file afterwards, a missing final newline supplied |
| KnownHosts.FormattedParses | src/lib.rs:107-141 | a formatted line, trimmed, parses to its host and key, and to an error if the key is empty |
| KnownHosts.LoadedHostsAreOk | src/bin/axsh.rs:68-89 | every host that a file loads could begin a line |
| KnownHosts.AppendExactly | src/bin/axsh.rs:57-126 | a file that loads to M loads after an append to M and the entry iff the host can begin a line and is new and the key is not empty |
| KnownHosts.EmptyKeyBreaksTheFile | src/bin/axsh.rs:94-126 | the counterexample for an empty key |
| KnownHosts.AppendsAccumulate | src/bin/axsh.rs:57-126 | no run of such appends makes the file unloadable or loses an entry |

## Left out

- Signature, hash, DER and PKCS#8 internals, and `/dev/urandom`: the library is a table of accepted triples, SHA-256 a function, random values are chosen afresh. A library call that fails is an absent answer.
- The wakers and the time limit around a handshake: a session that is given up is one that gets no further frame. One script answers polls to write, to flush and to shut down.
- The clock: any readings, two for each frame, taken as a function of the polls still to come; `Instant` is a natural number of nanoseconds.
- Within a poll the signature table does not change; it grows between polls.
- `HandshakeProgram.ConnectClient`, `HandshakeProgram.AcceptClient`: the source's one procedure is a few methods here, each a stretch of it.
- `TransportRuns.NothingIsLostOnTheWayOut`: counters are taken modulo 2^64, where a build with overflow checks would stop instead; the runs of the world stop short of 2^64 - 1 payloads.
- `KnownHosts.KnownHostsFile.LoadKnownHosts`: read errors other than a missing file, and contents that are not UTF-8, are not modelled; nor are file permissions.
- `Base64.DecodeBase64`: text is a sequence of characters, so the length check counts characters where the source counts bytes; a character outside ASCII is refused either way.
- The private key bundle, `parse_duration`, logging, error texts, command lines and the key tools: short forms that add only easy members.
- Command execution in `axshd`, the terminal loops and the sockets.
