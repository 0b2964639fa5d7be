/** What either end makes of any frame at all: when it goes on, when it is done, when it
    refuses, and what it answers. Packet types are written out. */
module HandshakeLaws {
  import opened Bytes
  import opened Wrappers
  import opened FrameReader
  import opened Handshake
  import opened HandshakeProgram
  import opened PacketLaws
  import opened Packets
  import opened Signatures
  import DigestCheck
  import Hdlc
  import WorldSteps

  // ------------------------------------------------------------------------- the server

  /** A hello `h` that the server can accept: the digest is authorised, the key found under
      it endorses the hello for this challenge, and the transcript can be signed. */
  predicate Acceptable(cfg: ServerConfig, hello: ServerHello, h: ClientHello, signature: bytes, table: Table,
      a: Answers)
  {
    && |signature| == ConnSignatureLen(cfg.sign.insecure) && h.connDigest in cfg.authorized
    && cfg.sign.PeerVerifier(cfg.authorized[h.connDigest]).Endorsed(
         table, signature, ClientHelloInput(hello.unique, h))
    && a.sign(Transcript(ServerHelloWire(hello), ClientHelloWire(h, signature))).Some?
  }

  /** A frame that is such a hello. */
  ghost predicate BringsHello(cfg: ServerConfig, hello: ServerHello, frame: bytes, table: Table, a: Answers) {
    exists h: ClientHello, signature: bytes ::
      Hdlc.Decoded(frame) == Ok(ClientHelloWire(h, signature)) && Acceptable(cfg, hello, h, signature, table, a)
  }

  lemma ServerAnswersRequest(cfg: ServerConfig, phase: ServerPhase, frame: bytes, table: Table, a: Answers)
    requires phase.WantClient? && Hdlc.Decoded(frame) == Ok([0x01])
    ensures ServerStep(cfg, phase, frame, table, a)
         == ServerReaction(phase, Some([0x02] + cfg.sign.PublicKeyBytes()))
  {
    hide Hdlc.Decoded, PeekClientHello, DecodeServerHello;
  }

  lemma StaysOnlyAtRequests(cfg: ServerConfig, phase: ServerPhase, frame: bytes, table: Table, a: Answers)
    requires phase.WantClient? && ServerStep(cfg, phase, frame, table, a).phase.WantClient?
    ensures Hdlc.Decoded(frame) == Ok([0x01])
  {
    hide Hdlc.Decoded, PeekClientHello, DecodeServerHello, VerifyConnSigned;
    var wire := Hdlc.Decoded(frame).value;
    assert wire == [wire[0]] + wire[1..] && [wire[0]] + [] == [wire[0]];
  }

  lemma DoneOnlyAtHellos(cfg: ServerConfig, phase: ServerPhase, frame: bytes, table: Table, a: Answers)
    requires phase.WantClient? && ServerStep(cfg, phase, frame, table, a).phase.ServerDone?
    ensures var next := ServerStep(cfg, phase, frame, table, a).phase;
            && Hdlc.Decoded(frame) == Ok(next.clientWire)
            && |next.clientWire| > ConnSignatureLen(cfg.sign.insecure)
            && var signature := next.clientWire[1..1 + ConnSignatureLen(cfg.sign.insecure)];
            && next.clientWire == ClientHelloWire(next.client, signature)
            && Acceptable(cfg, phase.hello, next.client, signature, table, a)
  {
    hide Hdlc.Decoded, PeekClientHello, DeserializeHandshake, ConnVerify.Endorsed, ServerHelloWire, ClientHelloInput,
      EncodeClientHello;
    WorldSteps.ServerStepFacts(cfg, phase, frame, table, a);
  }

  lemma KindsDiffer(h: ClientHello, signature: bytes)
    ensures ClientHelloWire(h, signature) != [0x01]
  {
  }

  lemma DoneBringsHello(cfg: ServerConfig, phase: ServerPhase, frame: bytes, table: Table, a: Answers)
    requires phase.WantClient? && ServerStep(cfg, phase, frame, table, a).phase.ServerDone?
    ensures var r := ServerStep(cfg, phase, frame, table, a);
            && BringsHello(cfg, phase.hello, frame, table, a) && r.phase.hello == phase.hello
            && a.sign(Transcript(ServerHelloWire(phase.hello), r.phase.clientWire)) == Some(r.phase.signature)
            && r.reply == Some([0x04] + r.phase.signature)
  {
    hide ServerStep, Hdlc.Decoded, ConnVerify.Endorsed, ServerHelloWire, ClientHelloInput, ClientHelloWire;
    var next := ServerStep(cfg, phase, frame, table, a).phase;
    DoneOnlyAtHellos(cfg, phase, frame, table, a);
    var signature := next.clientWire[1..1 + ConnSignatureLen(cfg.sign.insecure)];
    assert Acceptable(cfg, phase.hello, next.client, signature, table, a);
    DigestCheck.AcceptsExactly(cfg, phase, next.client, signature, frame, table, a);
  }

  lemma HelloIsAccepted(cfg: ServerConfig, phase: ServerPhase, frame: bytes, table: Table, a: Answers)
    requires phase.WantClient? && BringsHello(cfg, phase.hello, frame, table, a)
    ensures ServerStep(cfg, phase, frame, table, a).phase.ServerDone?
  {
    hide ServerStep, Hdlc.Decoded, ConnVerify.Endorsed, ServerHelloWire, ClientHelloInput, ClientHelloWire;
    var h: ClientHello, signature: bytes :|
      Hdlc.Decoded(frame) == Ok(ClientHelloWire(h, signature)) && Acceptable(cfg, phase.hello, h, signature, table, a);
    DigestCheck.AcceptsExactly(cfg, phase, h, signature, frame, table, a);
  }

  /** Three cases and no others. A server goes on waiting only at the one-byte request for
      its key, which it answers with its key; it is done only at an acceptable hello, which
      it answers with its signature over the transcript; at anything else it refuses and
      says nothing. */
  lemma ServerStepExactly(cfg: ServerConfig, phase: ServerPhase, frame: bytes, table: Table, a: Answers)
    requires phase.WantClient?
    ensures var r := ServerStep(cfg, phase, frame, table, a);
            && (r.phase.WantClient? <==> Hdlc.Decoded(frame) == Ok([0x01]))
            && (r.phase.WantClient? ==> r.phase == phase && r.reply == Some([0x02] + cfg.sign.PublicKeyBytes()))
            && (r.phase.ServerDone? <==> BringsHello(cfg, phase.hello, frame, table, a))
            && (r.phase.ServerDone? ==>
                  && r.phase.hello == phase.hello && Hdlc.Decoded(frame) == Ok(r.phase.clientWire)
                  && a.sign(Transcript(ServerHelloWire(phase.hello), r.phase.clientWire)) == Some(r.phase.signature)
                  && r.reply == Some([0x04] + r.phase.signature))
            && (r.phase.ServerRefused? ==> r.reply == None)
  {
    hide *;
    var r := ServerStep(cfg, phase, frame, table, a);
    ServerStepReplies(cfg, phase, frame, table, a);
    if Hdlc.Decoded(frame) == Ok([0x01]) {
      ServerAnswersRequest(cfg, phase, frame, table, a);
    } else if r.phase.WantClient? {
      StaysOnlyAtRequests(cfg, phase, frame, table, a);
    }
    if r.phase.ServerDone? {
      DoneOnlyAtHellos(cfg, phase, frame, table, a);
      DoneBringsHello(cfg, phase, frame, table, a);
    } else if BringsHello(cfg, phase.hello, frame, table, a) {
      HelloIsAccepted(cfg, phase, frame, table, a);
    }
  }

  /** A frame at which a server refuses ends its run: nothing more is read or sent. */
  lemma RefusalEndsTheRun(cfg: ServerConfig, phase: ServerPhase, incoming: seq<ReadPoll>, writes: seq<WritePoll>,
      tables: Tables, a: Answers)
    requires phase.WantClient? && Await(IDLE, incoming).outcome.Frame?
    requires var step := Await(IDLE, incoming);
             && Hdlc.Decoded(step.outcome.frame) != Ok([0x01])
             && !BringsHello(cfg, phase.hello, step.outcome.frame, tables(|step.rest|), a)
    ensures RunServer(cfg, phase, incoming, writes, tables, a)
         == ServerRun(Stands(ServerRefused), Await(IDLE, incoming).rest, writes, [])
  {
    hide *;
    var step := Await(IDLE, incoming);
    ServerStepExactly(cfg, phase, step.outcome.frame, tables(|step.rest|), a);
    RefusesIs(ServerStep(cfg, phase, step.outcome.frame, tables(|step.rest|), a));
    RunServerOnce(cfg, phase, incoming, writes, tables, a);
    RefusedServer(cfg, step.rest, writes, tables, a);
  }

  lemma RefusesIs(r: ServerReaction)
    requires r.phase.ServerRefused? && r.reply == None
    ensures r == SERVER_REFUSES
  {
  }

  /** A hello that is not authorised, or not endorsed by the key found under its digest, ends
      the run refused, with nothing more sent: no number of such hellos is answered. */
  lemma BadHelloEndsTheRun(cfg: ServerConfig, phase: ServerPhase, h: ClientHello, signature: bytes,
      incoming: seq<ReadPoll>, writes: seq<WritePoll>, tables: Tables, a: Answers)
    requires phase.WantClient? && Await(IDLE, incoming).outcome.Frame?
    requires var step := Await(IDLE, incoming);
             && Hdlc.Decoded(step.outcome.frame) == Ok(ClientHelloWire(h, signature))
             && !Acceptable(cfg, phase.hello, h, signature, tables(|step.rest|), a)
    ensures RunServer(cfg, phase, incoming, writes, tables, a)
         == ServerRun(Stands(ServerRefused), Await(IDLE, incoming).rest, writes, [])
  {
    hide RunServer, Await, Acceptable, Hdlc.Decoded, ClientHelloWire, ServerHelloWire;
    var step := Await(IDLE, incoming);
    KindsDiffer(h, signature);
    if BringsHello(cfg, phase.hello, step.outcome.frame, tables(|step.rest|), a) {
      var g: ClientHello, other: bytes :|
        Hdlc.Decoded(step.outcome.frame) == Ok(ClientHelloWire(g, other)) &&
        Acceptable(cfg, phase.hello, g, other, tables(|step.rest|), a);
      TranscriptInjective(phase.hello, h, signature, phase.hello, g, other);
      assert false;
    }
    RefusalEndsTheRun(cfg, phase, incoming, writes, tables, a);
  }

  /** Its first word: with no new packet key or challenge it refuses at once; otherwise it
      sends its hello, with its own digest, before it reads anything. */
  lemma StartServerExactly(cfg: ServerConfig, sha: Hash, incoming: seq<ReadPoll>, writes: seq<WritePoll>,
      tables: Tables, a: Answers)
    ensures var run := StartServer(cfg, sha, incoming, writes, tables, a);
            if a.packetKey.None? || a.unique.None? then
              run == ServerRun(Stands(ServerRefused), incoming, writes, [])
            else
              var hello := ServerHello(a.unique.value, sha(cfg.sign.PublicKeyBytes()), a.packetKey.value);
              var sending := SendFrame(Hdlc.Encoded(ServerHelloWire(hello)), writes);
              var next := RunServer(cfg, WantClient(hello), incoming, sending.rest, tables, a);
              match sending.outcome
              case DrainPending => run == ServerRun(Waiting, incoming, sending.rest, sending.sent)
              case DrainFailed => run == ServerRun(Stands(ServerRefused), incoming, sending.rest, sending.sent)
              case Drained => run == next.(sent := sending.sent + next.sent)
  {
    hide RunServer, ContinueServer, SendFrame, Hdlc.Encoded, ServerHelloWire;
    if a.packetKey.Some? && a.unique.Some? {
      var hello := ServerHelloOf(cfg, sha, a.unique.value, a.packetKey.value);
      ContinueServerOnce(cfg, ServerReaction(WantClient(hello), Some(ServerHelloWire(hello))), incoming, writes,
                         tables, a);
    }
  }

  // ------------------------------------------------------------------------- the client

  /** A server's key bundle that the client can go on with: it has the advertised digest,
      the application accepts it, there is a new packet key and challenge, and the library
      signs the hello for the server's challenge. */
  predicate CanAnswer(cfg: ClientConfig, sha: Hash, hello: ServerHello, bundle: bytes, a: Answers) {
    && sha(bundle) == hello.connDigest && cfg.accept(hello, bundle) && a.packetKey.Some? && a.unique.Some?
    && a.sign(ClientHelloInput(hello.unique, OwnHello(cfg, sha, a))).Some?
  }

  function OwnHello(cfg: ClientConfig, sha: Hash, a: Answers): ClientHello
    requires a.packetKey.Some? && a.unique.Some?
  {
    ClientHello(a.unique.value, sha(cfg.sign.PublicKeyBytes()), a.packetKey.value)
  }

  predicate Refuses(r: ClientReaction) { r.phase.ClientRefused? && r.reply.None? }

  /** The signed hello and the wait for ServerComplete, or a refusal. */
  predicate AnswersIfItCan(cfg: ClientConfig, sha: Hash, hello: ServerHello, helloWire: bytes, bundle: bytes,
      a: Answers, r: ClientReaction)
  {
    if CanAnswer(cfg, sha, hello, bundle, a) then
      var own := OwnHello(cfg, sha, a);
      var wire := ClientHelloWire(own, a.sign(ClientHelloInput(hello.unique, own)).value);
      r.phase == WantComplete(hello, helloWire, bundle, own, wire, a.now) && r.reply == Some(wire)
    else Refuses(r)
  }

  /** At first: a ServerHello is looked up. An unknown server is asked for its key, a known
      one is answered; nothing else is taken. */
  lemma FirstStepExactly(cfg: ClientConfig, sha: Hash, frame: bytes, table: Table, a: Answers)
    ensures var r := ClientStep(cfg, sha, WantHello, frame, table, a);
            && (forall h: ServerHello :: Hdlc.Decoded(frame) == Ok(ServerHelloWire(h)) ==>
                  match cfg.lookup(h)
                  case Err(_) => Refuses(r)
                  case Ok(None) => r.phase == WantPubkey(h, ServerHelloWire(h)) && r.reply == Some([0x01])
                  case Ok(Some(bundle)) => AnswersIfItCan(cfg, sha, h, ServerHelloWire(h), bundle, a, r))
            && ((forall h: ServerHello :: Hdlc.Decoded(frame) != Ok(ServerHelloWire(h))) ==> Refuses(r))
  {
    var r := ClientStep(cfg, sha, WantHello, frame, table, a);
    hide Hdlc.Decoded, Deserialize, SendClientHello, AnswersIfItCan, EncodeServerHello;
    if Hdlc.Decoded(frame).Ok? {
      var wire, keys := Hdlc.Decoded(frame).value, Keys(None, None, cfg.sign.insecure);
      forall h: ServerHello | wire == ServerHelloWire(h)
        ensures Deserialize(wire, keys, None, table, 0, 0).packet == Ok(ServerHelloPacket(h))
        ensures cfg.lookup(h).Ok? && cfg.lookup(h).value.Some? ==>
                  AnswersIfItCan(cfg, sha, h, wire, cfg.lookup(h).value.value, a,
                                 SendClientHello(cfg, sha, h, wire, cfg.lookup(h).value.value, a))
      {
        UnsignedExactly(ServerHelloPacket(h), wire, keys, None, table, 0, 0);
        if cfg.lookup(h).Ok? && cfg.lookup(h).value.Some? {
          AnswersExactly(cfg, sha, h, wire, cfg.lookup(h).value.value, a);
        }
      }
      var packet := Deserialize(wire, keys, None, table, 0, 0).packet;
      if packet.Ok? && packet.value.ServerHelloPacket? {
        UnsignedExactly(packet.value, wire, keys, None, table, 0, 0);
        assert wire == ServerHelloWire(packet.value.serverHello);
      }
    }
  }

  lemma AnswersExactly(cfg: ClientConfig, sha: Hash, hello: ServerHello, helloWire: bytes, bundle: bytes, a: Answers)
    ensures AnswersIfItCan(cfg, sha, hello, helloWire, bundle, a,
                           SendClientHello(cfg, sha, hello, helloWire, bundle, a))
  {
    hide ClientHelloInput, ClientHelloWire;
  }

  /** Having asked: any ServerPubkey is answered, if its bundle can be; nothing else is. */
  lemma PubkeyStepExactly(cfg: ClientConfig, sha: Hash, hello: ServerHello, helloWire: bytes, frame: bytes,
      table: Table, a: Answers)
    ensures var r := ClientStep(cfg, sha, WantPubkey(hello, helloWire), frame, table, a);
            if Hdlc.Decoded(frame).Ok? && Hdlc.Decoded(frame).value != [] && Hdlc.Decoded(frame).value[0] == 0x02
            then AnswersIfItCan(cfg, sha, hello, helloWire, Hdlc.Decoded(frame).value[1..], a, r)
            else Refuses(r)
  {
    hide Hdlc.Decoded, Deserialize, SendClientHello, AnswersIfItCan;
    if Hdlc.Decoded(frame).Ok? {
      var wire, keys := Hdlc.Decoded(frame).value, Keys(None, None, cfg.sign.insecure);
      var packet := Deserialize(wire, keys, None, table, 0, 0).packet;
      if wire != [] {
        assert wire == [wire[0]] + wire[1..];
        UnsignedExactly(ServerPubkey(wire[1..]), wire, keys, None, table, 0, 0);
        AnswersExactly(cfg, sha, hello, helloWire, wire[1..], a);
      }
      if packet.Ok? && packet.value.ServerPubkey? {
        UnsignedExactly(packet.value, wire, keys, None, table, 0, 0);
      }
    }
  }

  /** Having answered: it completes at a ServerComplete of the mode's length that the
      server's key endorses for both wires as they went over the stream, and at nothing
      else; and then it has no more to say. */
  lemma CompleteStepExactly(cfg: ClientConfig, sha: Hash, phase: ClientPhase, frame: bytes, table: Table, a: Answers)
    requires phase.WantComplete?
    ensures var r := ClientStep(cfg, sha, phase, frame, table, a);
            var wire := if Hdlc.Decoded(frame).Ok? then Hdlc.Decoded(frame).value else [];
            var transcript := phase.helloWire + phase.ownWire;
            if && wire != [] && wire[0] == 0x04 && |wire| == 1 + ConnSignatureLen(cfg.sign.insecure)
               && cfg.sign.PeerVerifier(phase.bundle).Endorsed(table, wire[1..], transcript)
            then
              && r.phase == ClientDone(phase.hello, phase.own, transcript, phase.bundle, wire[1..], phase.since)
              && r.reply.None?
            else Refuses(r)
  {
    hide Hdlc.Decoded, Deserialize, ConnVerify.Endorsed, ConnVerify.VerifyDetached;
    if Hdlc.Decoded(frame).Ok? {
      var wire, keys := Hdlc.Decoded(frame).value, Keys(None, None, cfg.sign.insecure);
      var packet, transcript := Deserialize(wire, keys, None, table, 0, 0).packet, phase.helloWire + phase.ownWire;
      if wire != [] {
        assert wire == [wire[0]] + wire[1..];
        UnsignedExactly(ServerComplete(wire[1..]), wire, keys, None, table, 0, 0);
        if |wire| == 1 + ConnSignatureLen(cfg.sign.insecure) {
          VerificationFormsAgree(cfg.sign.PeerVerifier(phase.bundle), table, wire[1..], [], transcript);
          assert [] + transcript == transcript;
        }
      }
      if packet.Ok? && packet.value.ServerComplete? {
        UnsignedExactly(packet.value, wire, keys, None, table, 0, 0);
      }
    }
  }
}
