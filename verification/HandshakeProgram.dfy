/** The two handshake procedures over a byte stream, as they read and write it. */
module HandshakeProgram {
  import opened Bytes
  import opened Wrappers
  import opened FrameReader
  import opened Handshake
  import opened Packets
  import opened Signatures
  import opened Transport
  import PacketLaws
  import Hdlc

  /** `write_all`; `DrainPending` if it never gets to the end. */
  method WriteAll(stream: ByteStream, data: bytes) returns (outcome: DrainOutcome)
    modifies stream`writes, stream`sent
    ensures var step := SendAll(data, old(stream.writes));
            && outcome == step.outcome && stream.writes == step.rest
            && stream.sent == old(stream.sent) + step.sent
  {
    hide FirstWrite;
    var start, goal := stream.sent, SendAll(data, stream.writes);
    var left := data;
    assert start + goal.sent == stream.sent + goal.sent;
    while left != []
      invariant var step := SendAll(left, stream.writes);
                && step.outcome == goal.outcome && step.rest == goal.rest
                && stream.sent + step.sent == start + goal.sent
      decreases |stream.writes|
    {
      ghost var before, step := stream.sent, SendAll(left, stream.writes);
      assert before + [] == before;
      if stream.writes == [] {
        return DrainPending;
      }
      ghost var polled := stream.writes;
      var poll := stream.PollWrite(left);
      match poll
      case WritePending =>
      case WriteFailed => return DrainFailed;
      case Wrote(n) =>
        if n == 0 {
          return DrainFailed;
        }
        ghost var next := SendAll(left[n..], stream.writes);
        assert step.sent == left[..n] + next.sent;
        assert before + (left[..n] + next.sent) == (before + left[..n]) + next.sent;
        left := left[n..];
    }
    assert stream.sent + [] == stream.sent;
    return Drained;
  }

  /** ... and `flush`. */
  method WriteFrame(stream: ByteStream, data: bytes) returns (outcome: DrainOutcome)
    modifies stream`writes, stream`sent, stream`flushed
    ensures var step := SendFrame(data, old(stream.writes));
            && outcome == step.outcome && stream.writes == step.rest
            && stream.sent == old(stream.sent) + step.sent
    ensures stream.flushed == old(stream.flushed) + if outcome == Drained then 1 else 0
  {
    hide SendAll;
    outcome := WriteAll(stream, data);
    if outcome != Drained {
      return;
    }
    ghost var goal, sent := FlushAll(stream.writes), stream.sent;
    while true
      invariant FlushAll(stream.writes) == goal && stream.sent == sent && stream.flushed == old(stream.flushed)
      decreases |stream.writes|
    {
      if stream.writes == [] {
        return DrainPending;
      }
      var poll := stream.PollFlush();
      if poll != WritePending {
        return FlushOutcome(poll);
      }
    }
  }

  /** What the next frame holds. */
  datatype Incoming<T> = NotYet | Bad | Got(wire: bytes, content: T)

  /** A frame read and decoded. */
  method ReadWire(stream: ByteStream) returns (r: Incoming<bytes>)
    modifies stream`incoming
    ensures var step := Await(IDLE, old(stream.incoming));
            && stream.incoming == step.rest
            && match r {
              case NotYet => step.outcome == Suspended
              case Bad => step.outcome != Suspended && (step.outcome.Frame? ==> Hdlc.Decoded(step.outcome.frame).Err?)
              case Got(wire, frame) => step.outcome == Frame(frame) && Hdlc.Decoded(frame) == Ok(wire)
            }
  {
    hide Await, Hdlc.Decoded;
    var outcome, left := ReadFrameAsync(stream);
    match outcome
    case Suspended => return NotYet;
    case Frame(frame) =>
      var decoded := Hdlc.Decode(frame);
      match decoded {
        case Err(_) => return Bad;
        case Ok(wire) => return Got(wire, frame);
      }
    case NoFrame => return Bad;
    case UnexpectedEof => return Bad;
    case TooLong => return Bad;
    case StreamFailed => return Bad;
  }

  /** ... and parsed, with no key of any kind. */
  method ReadPacket(stream: ByteStream, insecure: bool, tables: Tables) returns (r: Incoming<Packet>)
    modifies stream`incoming
    ensures var step := Await(IDLE, old(stream.incoming));
            && stream.incoming == step.rest
            && match r {
              case NotYet => step.outcome == Suspended
              case Bad => step.outcome != Suspended &&
                  (step.outcome.Frame? ==> Parse(step.outcome.frame, insecure, tables(|step.rest|)).None?)
              case Got(wire, packet) =>
                step.outcome.Frame? && Parse(step.outcome.frame, insecure, tables(|step.rest|)) == Some((wire, packet))
            }
  {
    hide Await, Hdlc.Decoded, Deserialize;
    var read := ReadWire(stream);
    match read
    case NotYet => return NotYet;
    case Bad => return Bad;
    case Got(wire, _) =>
      var packet := DeserializePacket(wire, Keys(None, None, insecure), null, tables(|stream.incoming|), 0, 0);
      match packet
      case Err(_) => return Bad;
      case Ok(p) => return Got(wire, p);
  }

  function Parse(frame: bytes, insecure: bool, table: Table): Option<(bytes, Packet)> {
    match Hdlc.Decoded(frame)
    case Err(_) => None
    case Ok(wire) =>
      match Deserialize(wire, Keys(None, None, insecure), None, table, 0, 0).packet
      case Err(_) => None
      case Ok(packet) => Some((wire, packet))
  }

  method ConnectClient(stream: ByteStream, cfg: ClientConfig, sha: Hash, tables: Tables, a: Answers)
    returns (standing: Standing<ClientPhase>, transport: PayloadStream?)
    modifies stream`incoming, stream`writes, stream`sent, stream`flushed
    ensures var run := RunClient(cfg, sha, WantHello, old(stream.incoming), old(stream.writes), tables, a);
            && standing == run.standing && stream.incoming == run.incoming && stream.writes == run.writes
            && stream.sent == old(stream.sent) + run.sent
    ensures standing.Stands? && standing.phase.ClientDone? <==> transport != null
    ensures transport != null ==> fresh(transport) && ClientHolds(standing.phase, transport, stream)
  {
    hide RunClient, ContinueClient, Await, SendFrame, Hdlc.Encoded, Deserialize, Hdlc.Decoded, SendClientHello;
    ghost var start := stream.sent;
    assert start + [] == start;
    RunClientOnce(cfg, sha, WantHello, stream.incoming, stream.writes, tables, a);
    var first := ReadPacket(stream, cfg.sign.insecure, tables);
    if first.NotYet? {
      return Waiting, null;
    }
    if first.Bad? || !first.content.ServerHelloPacket? {
      RefusedRun(cfg, sha, stream.incoming, stream.writes, tables, a);
      return Stands(ClientRefused), null;
    }
    var hello, helloWire := first.content.serverHello, first.wire;

    // The server's key bundle, from the cache or by asking for it.
    var found := cfg.lookup(hello);
    match found
    case Err(_) =>
      RefusedRun(cfg, sha, stream.incoming, stream.writes, tables, a);
      return Stands(ClientRefused), null;
    case Ok(Some(cached)) =>
      standing, transport := FinishClient(stream, cfg, sha, hello, helloWire, cached, tables, a);
    case Ok(None) =>
      standing, transport := RequestPubkey(stream, cfg, sha, hello, helloWire, tables, a);
  }

  method RequestPubkey(stream: ByteStream, cfg: ClientConfig, sha: Hash, hello: ServerHello, helloWire: bytes,
      tables: Tables, a: Answers)
    returns (standing: Standing<ClientPhase>, transport: PayloadStream?)
    modifies stream`incoming, stream`writes, stream`sent, stream`flushed
    ensures var request := ClientReaction(WantPubkey(hello, helloWire), Some([REQUEST_SERVER_PUBKEY_TYPE]));
            var run := ContinueClient(cfg, sha, request, old(stream.incoming), old(stream.writes), tables, a);
            && standing == run.standing && stream.incoming == run.incoming && stream.writes == run.writes
            && stream.sent == old(stream.sent) + run.sent
    ensures standing.Stands? && standing.phase.ClientDone? <==> transport != null
    ensures transport != null ==> fresh(transport) && ClientHolds(standing.phase, transport, stream)
  {
    hide RunClient, ContinueClient, Await, SendFrame, Hdlc.Encoded, Deserialize, Hdlc.Decoded, SendClientHello;
    ghost var request := ClientReaction(WantPubkey(hello, helloWire), Some([REQUEST_SERVER_PUBKEY_TYPE]));
    ContinueClientOnce(cfg, sha, request, stream.incoming, stream.writes, tables, a);
    ghost var start := stream.sent;
    var requested := WriteFrame(stream, Hdlc.Encoded([REQUEST_SERVER_PUBKEY_TYPE]));
    if requested == DrainPending {
      return Waiting, null;
    }
    if requested == DrainFailed {
      return Stands(ClientRefused), null;
    }
    ghost var sent := stream.sent;
    assert sent + [] == sent;
    RunClientOnce(cfg, sha, WantPubkey(hello, helloWire), stream.incoming, stream.writes, tables, a);
    ghost var run := RunClient(cfg, sha, WantPubkey(hello, helloWire), stream.incoming, stream.writes, tables, a);
    assert sent + run.sent == start + (SendFrame(Hdlc.Encoded([REQUEST_SERVER_PUBKEY_TYPE]),
        old(stream.writes)).sent + run.sent);
    var second := ReadPacket(stream, cfg.sign.insecure, tables);
    if second.NotYet? {
      return Waiting, null;
    }
    if second.Bad? || !second.content.ServerPubkey? {
      RefusedRun(cfg, sha, stream.incoming, stream.writes, tables, a);
      return Stands(ClientRefused), null;
    }
    standing, transport := FinishClient(stream, cfg, sha, hello, helloWire, second.content.bundle, tables, a);
  }

  /** From the server's key bundle to the established stream. */
  method FinishClient(stream: ByteStream, cfg: ClientConfig, sha: Hash, hello: ServerHello, helloWire: bytes,
      bundle: bytes, tables: Tables, a: Answers)
    returns (standing: Standing<ClientPhase>, transport: PayloadStream?)
    modifies stream`incoming, stream`writes, stream`sent, stream`flushed
    ensures var run := ContinueClient(cfg, sha, SendClientHello(cfg, sha, hello, helloWire, bundle, a),
                                      old(stream.incoming), old(stream.writes), tables, a);
            && standing == run.standing && stream.incoming == run.incoming && stream.writes == run.writes
            && stream.sent == old(stream.sent) + run.sent
    ensures standing.Stands? && standing.phase.ClientDone? <==> transport != null
    ensures transport != null ==> fresh(transport) && ClientHolds(standing.phase, transport, stream)
  {
    hide RunClient, ContinueClient, Await, SendFrame, Hdlc.Encoded, Deserialize, Hdlc.Decoded,
        PacketLaws.ClientHelloWire, ConnVerify.VerifyDetached;
    ghost var start := stream.sent;
    assert start + [] == start;
    RefusedRun(cfg, sha, stream.incoming, stream.writes, tables, a);
    if sha(bundle) != hello.connDigest {
      return Stands(ClientRefused), null;
    }
    if !cfg.accept(hello, bundle) {
      return Stands(ClientRefused), null;
    }
    var serverPacketVerify := new PacketVerify(hello.packetKey, a.now);
    if a.packetKey.None? || a.unique.None? {
      return Stands(ClientRefused), null;
    }
    var packetSign := new PacketSign(a.packetKey.value);
    var own := ClientHello(a.unique.value, sha(cfg.sign.PublicKeyBytes()), packetSign.publicKey);
    var signature := a.sign(ClientHelloInput(hello.unique, own));
    if signature.None? {
      return Stands(ClientRefused), null;
    }
    var ownWire := PacketLaws.ClientHelloWire(own, signature.value);
    var sending := WantComplete(hello, helloWire, bundle, own, ownWire, a.now);
    standing, transport := SendHello(stream, cfg, sha, sending, packetSign, serverPacketVerify, tables, a);
  }

  /** From the ClientHello on. */
  method SendHello(stream: ByteStream, cfg: ClientConfig, ghost sha: Hash, phase: ClientPhase,
                   packetSign: PacketSign, serverPacketVerify: PacketVerify, tables: Tables, ghost a: Answers)
    returns (standing: Standing<ClientPhase>, transport: PayloadStream?)
    requires phase.WantComplete? && packetSign.publicKey == phase.own.packetKey && packetSign.signCounter == 0
    requires serverPacketVerify.State() == Verifier(phase.hello.packetKey, 0, phase.since)
    modifies stream`incoming, stream`writes, stream`sent, stream`flushed
    ensures var run := ContinueClient(cfg, sha, ClientReaction(phase, Some(phase.ownWire)),
                                      old(stream.incoming), old(stream.writes), tables, a);
            && standing == run.standing && stream.incoming == run.incoming && stream.writes == run.writes
            && stream.sent == old(stream.sent) + run.sent
    ensures standing.Stands? && standing.phase.ClientDone? <==> transport != null
    ensures transport != null ==> fresh(transport) && ClientHolds(standing.phase, transport, stream)
  {
    hide RunClient, ContinueClient, SendFrame, Hdlc.Encoded;
    ghost var start := stream.sent;
    ContinueClientOnce(cfg, sha, ClientReaction(phase, Some(phase.ownWire)), stream.incoming, stream.writes, tables, a);
    var helloSent := WriteFrame(stream, Hdlc.Encoded(phase.ownWire));
    if helloSent == DrainPending {
      return Waiting, null;
    }
    if helloSent == DrainFailed {
      return Stands(ClientRefused), null;
    }
    ghost var sent := SendFrame(Hdlc.Encoded(phase.ownWire), old(stream.writes)).sent;
    ghost var run := RunClient(cfg, sha, phase, stream.incoming, stream.writes, tables, a);
    assert (start + sent) + run.sent == start + (sent + run.sent);
    standing, transport := ReceiveComplete(stream, cfg, sha, phase, packetSign, serverPacketVerify, tables, a);
  }

  method ReceiveComplete(stream: ByteStream, cfg: ClientConfig, ghost sha: Hash, phase: ClientPhase,
                         packetSign: PacketSign, serverPacketVerify: PacketVerify, tables: Tables, ghost a: Answers)
    returns (standing: Standing<ClientPhase>, transport: PayloadStream?)
    requires phase.WantComplete? && packetSign.publicKey == phase.own.packetKey && packetSign.signCounter == 0
    requires serverPacketVerify.State() == Verifier(phase.hello.packetKey, 0, phase.since)
    modifies stream`incoming, stream`writes, stream`sent, stream`flushed
    ensures var run := RunClient(cfg, sha, phase, old(stream.incoming), old(stream.writes), tables, a);
            && standing == run.standing && stream.incoming == run.incoming && stream.writes == run.writes
            && stream.sent == old(stream.sent) + run.sent
    ensures standing.Stands? && standing.phase.ClientDone? <==> transport != null
    ensures transport != null ==> fresh(transport) && ClientHolds(standing.phase, transport, stream)
  {
    hide RunClient, ContinueClient, Await, Deserialize, Hdlc.Decoded, ConnVerify.VerifyDetached;
    ghost var start := stream.sent;
    assert start + [] == start;
    RunClientOnce(cfg, sha, phase, stream.incoming, stream.writes, tables, a);
    var last := ReadPacket(stream, cfg.sign.insecure, tables);
    if last.NotYet? {
      return Waiting, null;
    }
    RefusedRun(cfg, sha, stream.incoming, stream.writes, tables, a);
    if last.Bad? || !last.content.ServerComplete? {
      return Stands(ClientRefused), null;
    }
    var transcript := phase.helloWire;
    transcript := transcript + phase.ownWire;
    if !cfg.sign.PeerVerifier(phase.bundle).VerifyDetached(tables(|stream.incoming|), last.content.signature,
        transcript) {
      return Stands(ClientRefused), null;
    }
    var done := ClientDone(phase.hello, phase.own, transcript, phase.bundle, last.content.signature, phase.since);
    DoneRun(cfg, sha, done, stream.incoming, stream.writes, tables, a);
    transport := new PayloadStream(stream, packetSign, serverPacketVerify);
    standing := Stands(done);
  }

  /** The established stream of a client that stands at `phase`. */
  ghost predicate ClientHolds(phase: ClientPhase, transport: PayloadStream, stream: ByteStream)
    reads transport, transport.packetSign, transport.peerPacketVerify, transport.frameReader
  {
    && phase.ClientDone? && transport.stream == stream && transport.Valid()
    && transport.packetSign.publicKey == phase.own.packetKey
    && transport.State() == ClientTransport(phase)
  }

  lemma RunClientOnce(cfg: ClientConfig, sha: Hash, phase: ClientPhase, incoming: seq<ReadPoll>,
      writes: seq<WritePoll>, tables: Tables, a: Answers)
    requires phase.Wants()
    ensures var run, step := RunClient(cfg, sha, phase, incoming, writes, tables, a), Await(IDLE, incoming);
            if step.outcome.Suspended? then run == ClientRun(Waiting, step.rest, writes, [])
            else if step.outcome.Frame? then
              run == ContinueClient(cfg, sha, ClientStep(cfg, sha, phase, step.outcome.frame, tables(|step.rest|), a),
                  step.rest, writes, tables, a)
            else run == ClientRun(Stands(ClientRefused), step.rest, writes, [])
  {
    hide Await, ClientStep, ContinueClient;
  }

  lemma ContinueClientOnce(cfg: ClientConfig, sha: Hash, reaction: ClientReaction, incoming: seq<ReadPoll>,
      writes: seq<WritePoll>, tables: Tables, a: Answers)
    requires reaction.reply.Some?
    ensures var run := ContinueClient(cfg, sha, reaction, incoming, writes, tables, a);
            var sending := SendFrame(Hdlc.Encoded(reaction.reply.value), writes);
            var next := RunClient(cfg, sha, reaction.phase, incoming, sending.rest, tables, a);
            match sending.outcome {
              case DrainPending => run == ClientRun(Waiting, incoming, sending.rest, sending.sent)
              case DrainFailed => run == ClientRun(Stands(ClientRefused), incoming, sending.rest, sending.sent)
              case Drained => run == next.(sent := sending.sent + next.sent)
            }
  {
    hide RunClient, SendFrame, Hdlc.Encoded;
  }

  lemma DoneRun(cfg: ClientConfig, sha: Hash, phase: ClientPhase, incoming: seq<ReadPoll>, writes: seq<WritePoll>,
      tables: Tables, a: Answers)
    requires !phase.Wants()
    ensures ContinueClient(cfg, sha, ClientReaction(phase, None), incoming, writes, tables, a)
         == ClientRun(Stands(phase), incoming, writes, [])
  {
  }

  lemma RefusedRun(cfg: ClientConfig, sha: Hash, incoming: seq<ReadPoll>, writes: seq<WritePoll>, tables: Tables,
      a: Answers)
    ensures ContinueClient(cfg, sha, CLIENT_REFUSES, incoming, writes, tables, a)
         == ClientRun(Stands(ClientRefused), incoming, writes, [])
  {
  }

  lemma ContinuesSilently(cfg: ClientConfig, sha: Hash, reaction: ClientReaction, incoming: seq<ReadPoll>,
      writes: seq<WritePoll>, tables: Tables, a: Answers)
    requires reaction.reply.None?
    ensures ContinueClient(cfg, sha, reaction, incoming, writes, tables, a)
         == RunClient(cfg, sha, reaction.phase, incoming, writes, tables, a)
  {
    hide RunClient;
  }

  lemma ClientStands(cfg: ClientConfig, sha: Hash, phase: ClientPhase, incoming: seq<ReadPoll>, writes: seq<WritePoll>,
      tables: Tables, a: Answers)
    requires !phase.Wants()
    ensures RunClient(cfg, sha, phase, incoming, writes, tables, a) == ClientRun(Stands(phase), incoming, writes, [])
  {
    hide ContinueClient;
  }

  // ----------------------------------------------------------------------- the server

  method AcceptClient(stream: ByteStream, cfg: ServerConfig, sha: Hash, tables: Tables, a: Answers)
    returns (standing: Standing<ServerPhase>, transport: PayloadStream?)
    modifies stream`incoming, stream`writes, stream`sent, stream`flushed
    ensures var run := StartServer(cfg, sha, old(stream.incoming), old(stream.writes), tables, a);
            && standing == run.standing && stream.incoming == run.incoming && stream.writes == run.writes
            && stream.sent == old(stream.sent) + run.sent
    ensures standing.Stands? && standing.phase.ServerDone? <==> transport != null
    ensures transport != null ==> fresh(transport) && ServerHolds(standing.phase, transport, stream)
  {
    hide RunServer, ContinueServer, SendFrame, Hdlc.Encoded, PacketLaws.ServerHelloWire;
    ghost var start := stream.sent;
    assert start + [] == start;
    if a.packetKey.None? || a.unique.None? {
      return Stands(ServerRefused), null;
    }
    var packetSign := new PacketSign(a.packetKey.value);
    var hello := ServerHelloOf(cfg, sha, a.unique.value, packetSign.publicKey);
    var helloWire := PacketLaws.ServerHelloWire(hello);
    ContinueServerOnce(cfg, ServerReaction(WantClient(hello), Some(helloWire)), stream.incoming, stream.writes,
        tables, a);
    var helloSent := WriteFrame(stream, Hdlc.Encoded(helloWire));
    if helloSent == DrainPending {
      return Waiting, null;
    }
    if helloSent == DrainFailed {
      return Stands(ServerRefused), null;
    }
    ghost var sent := SendFrame(Hdlc.Encoded(helloWire), old(stream.writes)).sent;
    ghost var run := RunServer(cfg, WantClient(hello), stream.incoming, stream.writes, tables, a);
    assert (start + sent) + run.sent == start + (sent + run.sent);
    standing, transport := ServeLoop(stream, cfg, hello, packetSign, tables, a);
  }

  ghost predicate AlongRun(goal: ServerRun, start: bytes, run: ServerRun, sent: bytes) {
    run.(sent := goal.sent) == goal && sent + run.sent == start + goal.sent
  }

  /** From the loop that awaits a request or a hello to the established stream. */
  method ServeLoop(stream: ByteStream, cfg: ServerConfig, hello: ServerHello, packetSign: PacketSign, tables: Tables,
      a: Answers)
    returns (standing: Standing<ServerPhase>, transport: PayloadStream?)
    requires packetSign.publicKey == hello.packetKey && packetSign.signCounter == 0
    modifies stream`incoming, stream`writes, stream`sent, stream`flushed
    ensures AlongRun(RunServer(cfg, WantClient(hello), old(stream.incoming), old(stream.writes), tables, a),
        old(stream.sent),
                     ServerRun(standing, stream.incoming, stream.writes, []), stream.sent)
    ensures standing.Stands? && standing.phase.ServerDone? <==> transport != null
    ensures transport != null ==> fresh(transport) && ServerHolds(standing.phase, transport, stream)
  {
    hide RunServer, ContinueServer, ServerStep, Await, SendFrame, Hdlc.Encoded, Hdlc.Decoded;
    var phase: ServerPhase := WantClient(hello);
    ghost var start, goal := stream.sent, RunServer(cfg, phase, stream.incoming, stream.writes, tables, a);
    while true
      invariant AlongRun(goal, start, RunServer(cfg, phase, stream.incoming, stream.writes, tables, a), stream.sent)
      decreases |stream.incoming|
    {
      assert stream.sent + [] == stream.sent;
      RunServerOnce(cfg, phase, stream.incoming, stream.writes, tables, a);
      AwaitConsumes(IDLE, stream.incoming);
      ghost var polls, writes := stream.incoming, stream.writes;
      ghost var run := RunServer(cfg, phase, polls, writes, tables, a);
      var read := ReadWire(stream);
      if read.NotYet? {
        return Waiting, null;
      }
      if read.Bad? {
        BadWireRefuses(cfg, phase, polls, writes, tables, a);
        return Stands(ServerRefused), null;
      }
      var table := tables(|stream.incoming|);
      var reaction := HandleWire(cfg, phase, read.wire, read.content, table, a);
      if reaction.reply.None? {
        ServerStepReplies(cfg, phase, read.content, table, a);
        RefusedServer(cfg, stream.incoming, stream.writes, tables, a);
        return Stands(ServerRefused), null;
      }
      ContinueServerOnce(cfg, reaction, stream.incoming, stream.writes, tables, a);
      ghost var before := stream.sent;
      var replied := WriteFrame(stream, Hdlc.Encoded(reaction.reply.value));
      if replied == DrainPending {
        return Waiting, null;
      }
      if replied == DrainFailed {
        return Stands(ServerRefused), null;
      }
      ghost var sent := SendFrame(Hdlc.Encoded(reaction.reply.value), writes).sent;
      ghost var next := RunServer(cfg, reaction.phase, stream.incoming, stream.writes, tables, a);
      assert (before + sent) + next.sent == before + (sent + next.sent);
      if reaction.phase.ServerDone? {
        ServerStepReplies(cfg, phase, read.content, table, a);
        DoneServer(cfg, reaction.phase, stream.incoming, stream.writes, tables, a);
        var clientPacketVerify := new PacketVerify(reaction.phase.client.packetKey, reaction.phase.since);
        transport := new PayloadStream(stream, packetSign, clientPacketVerify);
        assert stream.sent + [] == stream.sent;
        return Stands(reaction.phase), transport;
      }
      ServerStepReplies(cfg, phase, read.content, table, a);
    }
  }

  /** The body of the loop, for one decoded frame. */
  method HandleWire(cfg: ServerConfig, phase: ServerPhase, wire: bytes, ghost frame: bytes, table: Table, a: Answers)
    returns (reaction: ServerReaction)
    requires phase.WantClient? && Hdlc.Decoded(frame) == Ok(wire)
    ensures reaction == ServerStep(cfg, phase, frame, table, a)
  {
    hide Hdlc.Decoded, DeserializeHandshake, PeekClientHello;
    var insecure := cfg.sign.insecure;
    var kind := PeekType(wire);
    if kind.Err? {
      return SERVER_REFUSES;
    }
    if kind.value == REQUEST_SERVER_PUBKEY_TYPE {
      var packet := DeserializePacket(wire, Keys(None, None, insecure), null, table, 0, 0);
      if packet.Err? {
        return SERVER_REFUSES;
      }
      return ServerReaction(phase, Some([SERVER_PUBKEY_TYPE] + cfg.sign.PublicKeyBytes()));
    }
    if kind.value == CLIENT_HELLO_TYPE {
      var peeked := PeekClientHello(wire, insecure);
      if peeked.Err? || peeked.value.connDigest !in cfg.authorized {
        return SERVER_REFUSES;
      }
      var bundle := cfg.authorized[peeked.value.connDigest];
      var clientConnVerify := cfg.sign.PeerVerifier(bundle);
      var keys := Keys(Some(phase.hello.unique), Some(clientConnVerify), insecure);
      var packet := DeserializePacket(wire, keys, null, table, 0, 0);
      if packet.Err? || !packet.value.ClientHelloPacket? {
        return SERVER_REFUSES;
      }
      var transcript := PacketLaws.ServerHelloWire(phase.hello);
      transcript := transcript + wire;
      var signature := a.sign(transcript);
      if signature.None? {
        return SERVER_REFUSES;
      }
      var done := ServerDone(phase.hello, packet.value.clientHello, bundle, wire, signature.value, a.now);
      return ServerReaction(done, Some([SERVER_COMPLETE_TYPE] + signature.value));
    }
    return SERVER_REFUSES;
  }

  ghost predicate ServerHolds(phase: ServerPhase, transport: PayloadStream, stream: ByteStream)
    reads transport, transport.packetSign, transport.peerPacketVerify, transport.frameReader
  {
    && phase.ServerDone? && transport.stream == stream && transport.Valid()
    && transport.packetSign.publicKey == phase.hello.packetKey
    && transport.State() == ServerTransport(phase)
  }

  /** What a step of the server can come to. */
  lemma ServerStepReplies(cfg: ServerConfig, phase: ServerPhase, frame: bytes, table: Table, a: Answers)
    requires phase.WantClient?
    ensures var r := ServerStep(cfg, phase, frame, table, a);
            && (r.reply.None? ==> r == SERVER_REFUSES)
            && (r.reply.Some? ==> r.phase == phase || (r.phase.ServerDone? && r.phase.hello == phase.hello))
  {
    hide Hdlc.Decoded, Deserialize, PeekClientHello;
  }

  lemma RunServerOnce(cfg: ServerConfig, phase: ServerPhase, incoming: seq<ReadPoll>, writes: seq<WritePoll>,
      tables: Tables, a: Answers)
    requires phase.WantClient?
    ensures var run, step := RunServer(cfg, phase, incoming, writes, tables, a), Await(IDLE, incoming);
            if step.outcome.Suspended? then run == ServerRun(Waiting, step.rest, writes, [])
            else if step.outcome.Frame? then
              run == ContinueServer(cfg, ServerStep(cfg, phase, step.outcome.frame, tables(|step.rest|), a),
                  step.rest, writes, tables, a)
            else run == ServerRun(Stands(ServerRefused), step.rest, writes, [])
  {
    hide Await, ServerStep, ContinueServer;
  }

  lemma BadWireRefuses(cfg: ServerConfig, phase: ServerPhase, incoming: seq<ReadPoll>, writes: seq<WritePoll>,
      tables: Tables, a: Answers)
    requires phase.WantClient?
    requires var step := Await(IDLE, incoming);
             step.outcome != Suspended && (step.outcome.Frame? ==> Hdlc.Decoded(step.outcome.frame).Err?)
    ensures RunServer(cfg, phase, incoming, writes, tables, a)
         == ServerRun(Stands(ServerRefused), Await(IDLE, incoming).rest, writes, [])
  {
    hide Await, ContinueServer, RunServer, Hdlc.Decoded;
    RunServerOnce(cfg, phase, incoming, writes, tables, a);
    RefusedServer(cfg, Await(IDLE, incoming).rest, writes, tables, a);
  }

  lemma ContinueServerOnce(cfg: ServerConfig, reaction: ServerReaction, incoming: seq<ReadPoll>,
      writes: seq<WritePoll>, tables: Tables, a: Answers)
    requires reaction.reply.Some?
    ensures var run := ContinueServer(cfg, reaction, incoming, writes, tables, a);
            var sending := SendFrame(Hdlc.Encoded(reaction.reply.value), writes);
            var next := RunServer(cfg, reaction.phase, incoming, sending.rest, tables, a);
            match sending.outcome {
              case DrainPending => run == ServerRun(Waiting, incoming, sending.rest, sending.sent)
              case DrainFailed => run == ServerRun(Stands(ServerRefused), incoming, sending.rest, sending.sent)
              case Drained => run == next.(sent := sending.sent + next.sent)
            }
  {
    hide RunServer, SendFrame, Hdlc.Encoded;
  }

  lemma DoneServer(cfg: ServerConfig, phase: ServerPhase, incoming: seq<ReadPoll>, writes: seq<WritePoll>,
      tables: Tables, a: Answers)
    requires !phase.WantClient?
    ensures RunServer(cfg, phase, incoming, writes, tables, a) == ServerRun(Stands(phase), incoming, writes, [])
  {
  }

  lemma RefusedServer(cfg: ServerConfig, incoming: seq<ReadPoll>, writes: seq<WritePoll>, tables: Tables, a: Answers)
    ensures ContinueServer(cfg, SERVER_REFUSES, incoming, writes, tables, a)
         == ServerRun(Stands(ServerRefused), incoming, writes, [])
  {
  }
}
