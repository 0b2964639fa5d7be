/** The handshakes of src/client.rs and src/server.rs: one step per frame, whole runs over
    a byte stream, and the two procedures. */
module Handshake {
  import opened Bytes
  import opened Wrappers
  import opened FrameReader
  import opened Packets
  import opened Signatures
  import opened Transport
  import PacketLaws
  import Hdlc

  /** SHA-256, left abstract. */
  type Hash = bytes -> Bytes32

  /** What the libraries answer during a handshake, `None` where they fail: a new packet
      key, a random challenge, and the ConnSign signature over whatever message it is asked
      to sign; and the clock when the verifier of the peer's packets is made. */
  datatype Answers = Answers(packetKey: Option<Bytes32>, unique: Option<u64>, sign: bytes -> Option<bytes>, now: nat)

  /** What the signature library accepts when the frame is handled that leaves the given
      number of polls to come. */
  type Tables = nat -> Table

  // ----------------------------------------------------------------------- the client

  datatype ClientConfig = ClientConfig(
    sign: ConnSign,
    lookup: ServerHello -> Result<Option<bytes>, PacketError>,
    accept: (ServerHello, bytes) -> bool)

  datatype ClientPhase =
    | WantHello
    | WantPubkey(hello: ServerHello, helloWire: bytes)
    | WantComplete(hello: ServerHello, helloWire: bytes, bundle: bytes, own: ClientHello, ownWire: bytes, since: nat)
    | ClientDone(hello: ServerHello, own: ClientHello, transcript: bytes, bundle: bytes, signature: bytes, since: nat)
    | ClientRefused
  {
    predicate Wants() { WantHello? || WantPubkey? || WantComplete? }
  }

  /** The next phase, and a packet to send before it. */
  datatype ClientReaction = ClientReaction(phase: ClientPhase, reply: Option<bytes>)

  const CLIENT_REFUSES := ClientReaction(ClientRefused, None)

  /** Once the server's key bundle is at hand. */
  function SendClientHello(cfg: ClientConfig, sha: Hash, hello: ServerHello, helloWire: bytes, bundle: bytes,
      a: Answers): ClientReaction
  {
    if sha(bundle) != hello.connDigest then CLIENT_REFUSES
    else if !cfg.accept(hello, bundle) then CLIENT_REFUSES
    else if a.packetKey.None? || a.unique.None? then CLIENT_REFUSES
    else
      var own := ClientHello(a.unique.value, sha(cfg.sign.PublicKeyBytes()), a.packetKey.value);
      match a.sign(ClientHelloInput(hello.unique, own))
      case None => CLIENT_REFUSES
      case Some(signature) =>
        var wire := PacketLaws.ClientHelloWire(own, signature);
        ClientReaction(WantComplete(hello, helloWire, bundle, own, wire, a.now), Some(wire))
  }

  /** One frame. */
  function ClientStep(cfg: ClientConfig, sha: Hash, phase: ClientPhase, frame: bytes, table: Table,
      a: Answers): ClientReaction
    requires phase.Wants()
  {
    match Hdlc.Decoded(frame)
    case Err(_) => CLIENT_REFUSES
    case Ok(wire) =>
      match Deserialize(wire, Keys(None, None, cfg.sign.insecure), None, table, 0, 0).packet
      case Err(_) => CLIENT_REFUSES
      case Ok(packet) =>
        match phase
        case WantHello =>
          if !packet.ServerHelloPacket? then CLIENT_REFUSES
          else
            var hello := packet.serverHello;
            (match cfg.lookup(hello)
             case Err(_) => CLIENT_REFUSES
             case Ok(Some(bundle)) => SendClientHello(cfg, sha, hello, wire, bundle, a)
             case Ok(None) => ClientReaction(WantPubkey(hello, wire), Some([REQUEST_SERVER_PUBKEY_TYPE])))
        case WantPubkey(hello, helloWire) =>
          if !packet.ServerPubkey? then CLIENT_REFUSES
          else SendClientHello(cfg, sha, hello, helloWire, packet.bundle, a)
        case WantComplete(hello, helloWire, bundle, own, ownWire, since) =>
          if !packet.ServerComplete? then CLIENT_REFUSES
          else
            var transcript := helloWire + ownWire;
            if !cfg.sign.PeerVerifier(bundle).VerifyDetached(table, packet.signature, transcript) then CLIENT_REFUSES
            else ClientReaction(ClientDone(hello, own, transcript, bundle, packet.signature, since), None)
  }

  // ----------------------------------------------------------------------- the server

  datatype ServerConfig = ServerConfig(sign: ConnSign, authorized: map<Bytes32, bytes>)

  datatype ServerPhase =
    | WantClient(hello: ServerHello)
    | ServerDone(hello: ServerHello, client: ClientHello, clientBundle: bytes, clientWire: bytes, signature: bytes,
        since: nat)
    | ServerRefused

  datatype ServerReaction = ServerReaction(phase: ServerPhase, reply: Option<bytes>)

  const SERVER_REFUSES := ServerReaction(ServerRefused, None)

  function ServerHelloOf(cfg: ServerConfig, sha: Hash, unique: u64, packetKey: Bytes32): ServerHello {
    ServerHello(unique, sha(cfg.sign.PublicKeyBytes()), packetKey)
  }

  /** One frame. */
  function ServerStep(cfg: ServerConfig, phase: ServerPhase, frame: bytes, table: Table, a: Answers): ServerReaction
    requires phase.WantClient?
  {
    var insecure := cfg.sign.insecure;
    match Hdlc.Decoded(frame)
    case Err(_) => SERVER_REFUSES
    case Ok(wire) =>
      match PeekType(wire)
      case Err(_) => SERVER_REFUSES
      case Ok(kind) =>
        if kind == REQUEST_SERVER_PUBKEY_TYPE then
          if Deserialize(wire, Keys(None, None, insecure), None, table, 0, 0).packet.Err? then SERVER_REFUSES
          else ServerReaction(phase, Some([SERVER_PUBKEY_TYPE] + cfg.sign.PublicKeyBytes()))
        else if kind == CLIENT_HELLO_TYPE then
          (match PeekClientHello(wire, insecure)
          case Err(_) => SERVER_REFUSES
          case Ok(peeked) =>
            if peeked.connDigest !in cfg.authorized then SERVER_REFUSES
            else
              var bundle := cfg.authorized[peeked.connDigest];
              var keys := Keys(Some(phase.hello.unique), Some(cfg.sign.PeerVerifier(bundle)), insecure);
              var parsed := Deserialize(wire, keys, None, table, 0, 0).packet;
              if parsed.Err? || !parsed.value.ClientHelloPacket? then SERVER_REFUSES
              else
                match a.sign(PacketLaws.Transcript(PacketLaws.ServerHelloWire(phase.hello), wire))
                case None => SERVER_REFUSES
                case Some(signature) =>
                  ServerReaction(
                    ServerDone(phase.hello, parsed.value.clientHello, bundle, wire, signature, a.now),
                    Some([SERVER_COMPLETE_TYPE] + signature)))
        else SERVER_REFUSES
  }

  // ------------------------------------------------------------- once it is established

  function ClientTransport(phase: ClientPhase): Transport
    requires phase.ClientDone?
  {
    Fresh(phase.hello.packetKey, phase.since)
  }

  function ServerTransport(phase: ServerPhase): Transport
    requires phase.ServerDone?
  {
    Fresh(phase.client.packetKey, phase.since)
  }

  // --------------------------------------------------------------- runs over a stream

  datatype SendStep = SendStep(outcome: DrainOutcome, sent: bytes, rest: seq<WritePoll>)

  /** `write_all`: polling again for as long as the stream below is pending. */
  function SendAll(data: bytes, writes: seq<WritePoll>): SendStep
    decreases |writes|
  {
    if data == [] then SendStep(Drained, [], writes)
    else if writes == [] then SendStep(DrainPending, [], [])
    else
      match FirstWrite(writes, |data|)
      case WritePending => SendAll(data, writes[1..])
      case WriteFailed => SendStep(DrainFailed, [], writes[1..])
      case Wrote(n) =>
        if n == 0 then SendStep(DrainFailed, [], writes[1..])
        else
          var step := SendAll(data[n..], writes[1..]);
          step.(sent := data[..n] + step.sent)
  }

  /** `flush`, likewise. */
  function FlushAll(writes: seq<WritePoll>): SendStep
    decreases |writes|
  {
    if writes == [] then SendStep(DrainPending, [], [])
    else if writes[0] == WritePending then FlushAll(writes[1..])
    else SendStep(FlushOutcome(writes[0]), [], writes[1..])
  }

  /** A whole frame, written and flushed. */
  function SendFrame(data: bytes, writes: seq<WritePoll>): SendStep {
    var step := SendAll(data, writes);
    if step.outcome == Drained then FlushAll(step.rest).(sent := step.sent) else step
  }

  /** What is left of the stream, what was sent, and how the handshake stands; `Waiting`
      when the stream below has no more polls in store. */
  datatype Standing<P> = Waiting | Stands(phase: P)

  datatype ClientRun = ClientRun(standing: Standing<ClientPhase>, incoming: seq<ReadPoll>, writes: seq<WritePoll>,
      sent: bytes)

  function RunClient(cfg: ClientConfig, sha: Hash, phase: ClientPhase, incoming: seq<ReadPoll>,
      writes: seq<WritePoll>, tables: Tables, a: Answers): ClientRun
    decreases |incoming|, 0
  {
    if !phase.Wants() then ClientRun(Stands(phase), incoming, writes, [])
    else
      var step := Await(IDLE, incoming);
      AwaitConsumes(IDLE, incoming);
      match step.outcome
      case Suspended => ClientRun(Waiting, step.rest, writes, [])
      case Frame(frame) =>
        ContinueClient(cfg, sha, ClientStep(cfg, sha, phase, frame, tables(|step.rest|), a), step.rest, writes,
            tables, a)
      case _ => ClientRun(Stands(ClientRefused), step.rest, writes, [])
  }

  /** Send the reply, if any, and go on. */
  function ContinueClient(cfg: ClientConfig, sha: Hash, reaction: ClientReaction, incoming: seq<ReadPoll>,
      writes: seq<WritePoll>, tables: Tables, a: Answers): ClientRun
    decreases |incoming|, 1
  {
    match reaction.reply
    case None => RunClient(cfg, sha, reaction.phase, incoming, writes, tables, a)
    case Some(wire) =>
      var sending := SendFrame(Hdlc.Encoded(wire), writes);
      match sending.outcome
      case DrainPending => ClientRun(Waiting, incoming, sending.rest, sending.sent)
      case DrainFailed => ClientRun(Stands(ClientRefused), incoming, sending.rest, sending.sent)
      case Drained =>
        var run := RunClient(cfg, sha, reaction.phase, incoming, sending.rest, tables, a);
        run.(sent := sending.sent + run.sent)
  }

  datatype ServerRun = ServerRun(standing: Standing<ServerPhase>, incoming: seq<ReadPoll>, writes: seq<WritePoll>,
      sent: bytes)

  /** From the loop on, once the ServerHello is out. */
  function RunServer(cfg: ServerConfig, phase: ServerPhase, incoming: seq<ReadPoll>, writes: seq<WritePoll>,
      tables: Tables, a: Answers): ServerRun
    decreases |incoming|, 0
  {
    if !phase.WantClient? then ServerRun(Stands(phase), incoming, writes, [])
    else
      var step := Await(IDLE, incoming);
      AwaitConsumes(IDLE, incoming);
      match step.outcome
      case Suspended => ServerRun(Waiting, step.rest, writes, [])
      case Frame(frame) =>
        ContinueServer(cfg, ServerStep(cfg, phase, frame, tables(|step.rest|), a), step.rest, writes, tables, a)
      case _ => ServerRun(Stands(ServerRefused), step.rest, writes, [])
  }

  function ContinueServer(cfg: ServerConfig, reaction: ServerReaction, incoming: seq<ReadPoll>,
      writes: seq<WritePoll>, tables: Tables, a: Answers): ServerRun
    decreases |incoming|, 1
  {
    match reaction.reply
    case None => RunServer(cfg, reaction.phase, incoming, writes, tables, a)
    case Some(wire) =>
      var sending := SendFrame(Hdlc.Encoded(wire), writes);
      match sending.outcome
      case DrainPending => ServerRun(Waiting, incoming, sending.rest, sending.sent)
      case DrainFailed => ServerRun(Stands(ServerRefused), incoming, sending.rest, sending.sent)
      case Drained =>
        var run := RunServer(cfg, reaction.phase, incoming, sending.rest, tables, a);
        run.(sent := sending.sent + run.sent)
  }

  /** The whole of the server's handshake. */
  function StartServer(cfg: ServerConfig, sha: Hash, incoming: seq<ReadPoll>, writes: seq<WritePoll>, tables: Tables,
      a: Answers): ServerRun
  {
    if a.packetKey.None? || a.unique.None? then ServerRun(Stands(ServerRefused), incoming, writes, [])
    else
      var hello := ServerHelloOf(cfg, sha, a.unique.value, a.packetKey.value);
      var reaction := ServerReaction(WantClient(hello), Some(PacketLaws.ServerHelloWire(hello)));
      ContinueServer(cfg, reaction, incoming, writes, tables, a)
  }

  lemma {:induction false} AwaitConsumes(r: Reader, script: seq<ReadPoll>)
    ensures var step := Await(r, script);
            && |step.rest| <= |script|
            && (script != [] ==> |step.rest| < |script|)
            && (step.outcome == Suspended ==> step.rest == [])
            && (script == [] ==> step.outcome == Suspended)
    decreases |script|
  {
    hide ReadFrame;
    var step := ReadFrame(r, script);
    if step.outcome == Suspended && script != [] {
      AwaitConsumes(step.reader, step.rest);
    }
    if script == [] {
      AwaitNothing(r);
    }
  }

  lemma AwaitNothing(r: Reader)
    ensures Await(r, []) == ReadStep(Suspended, r, [])
  {
  }
}
