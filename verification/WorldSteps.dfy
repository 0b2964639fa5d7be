/** Every event keeps the invariants of the world. */
module WorldSteps {
  import opened Bytes
  import opened Wrappers
  import opened FaithfulStreams
  import opened Handshake
  import opened Packets
  import opened PacketLaws
  import opened Signatures
  import opened Transport
  import opened TransportRuns
  import opened VerifierRuns
  import opened World
  import Hdlc

  // ------------------------------------------------------------- one session's own move

  lemma EndorsedStays(v: ConnVerify, table: Table, more: Table, signature: bytes, message: bytes)
    requires v.Endorsed(table, signature, message) && table <= more
    ensures v.Endorsed(more, signature, message)
  {
  }

  lemma GenuineStays(log: seq<Signing>, key: Bytes32, table: Table, more: Table)
    requires Genuine(log, key, table) && table <= more
    ensures Genuine(log, key, more)
  {
  }

  lemma SessionStaysOk(s: Session, table: Table, more: Table, sha: Hash)
    requires SessionOk(s, table, sha) && table <= more
    ensures SessionOk(s, more, sha)
  {
    hide ConnVerify.Endorsed, WriteSide, Genuine;
    if s.endpoint.Some? {
      GenuineStays(s.endpoint.value.log, s.packetKey.value, table, more);
    }
    match s.side
    case ClientSide(cfg, phase) =>
      if phase.ClientDone? {
        EndorsedStays(cfg.sign.PeerVerifier(phase.bundle), table, more, phase.signature, phase.transcript);
      }
    case ServerSide(cfg, hello, phase) =>
      if phase.ServerDone? {
        EndorsedStays(cfg.sign.PeerVerifier(phase.clientBundle), table, more,
                      phase.clientWire[1..1 + ConnSignatureLen(cfg.sign.insecure)],
                          ClientHelloInput(hello.unique, phase.client));
      }
  }

  /** What a client's step makes of a frame. */
  lemma ClientStepFacts(cfg: ClientConfig, sha: Hash, phase: ClientPhase, frame: bytes, table: Table, a: Answers)
    requires phase.Wants()
    ensures var next := ClientStep(cfg, sha, phase, frame, table, a).phase;
            && (next.WantPubkey? ==>
                  phase.WantHello? && next.helloWire == ServerHelloWire(next.hello) && cfg.lookup(next.hello) ==
                      Ok(None))
            && (next.WantComplete? ==>
                  && (phase.WantHello? ==>
                        next.helloWire == ServerHelloWire(next.hello) && cfg.lookup(next.hello) ==
                            Ok(Some(next.bundle)))
                  && (phase.WantPubkey? ==> next.helloWire == phase.helloWire && next.hello == phase.hello)
                  && !phase.WantComplete?
                  && a.packetKey == Some(next.own.packetKey)
                  && next.own.connDigest == sha(cfg.sign.PublicKeyBytes())
                  && a.sign(ClientHelloInput(next.hello.unique, next.own)).Some?
                  && next.ownWire == ClientHelloWire(next.own,
                       a.sign(ClientHelloInput(next.hello.unique, next.own)).value)
                  && sha(next.bundle) == next.hello.connDigest && cfg.accept(next.hello, next.bundle))
            && (next.ClientDone? ==>
                  && phase.WantComplete? && next.hello == phase.hello && next.own == phase.own
                  && next.bundle == phase.bundle && next.since == phase.since
                  && next.transcript == phase.helloWire + phase.ownWire
                  && cfg.sign.PeerVerifier(next.bundle).Endorsed(table, next.signature, next.transcript))
            && !next.WantHello?
  {
    hide Hdlc.Decoded, Deserialize, ConnVerify.VerifyDetached, ConnVerify.Endorsed, ServerHelloWire, ClientHelloWire;
    if Hdlc.Decoded(frame).Ok? {
      var wire := Hdlc.Decoded(frame).value;
      var keys := Keys(None, None, cfg.sign.insecure);
      var packet := Deserialize(wire, keys, None, table, 0, 0).packet;
      if packet.Ok? && Unsigned(packet.value) {
        UnsignedExactly(packet.value, wire, keys, None, table, 0, 0);
        if phase.WantComplete? && packet.value.ServerComplete? {
          var transcript := phase.helloWire + phase.ownWire;
          VerificationFormsAgree(cfg.sign.PeerVerifier(phase.bundle), table, packet.value.signature, [], transcript);
          assert [] + transcript == transcript;
        }
      }
    }
  }

  /** What a server's step makes of a frame. */
  lemma ServerStepFacts(cfg: ServerConfig, phase: ServerPhase, frame: bytes, table: Table, a: Answers)
    requires phase.WantClient?
    ensures var next, n := ServerStep(cfg, phase, frame, table, a).phase, ConnSignatureLen(cfg.sign.insecure);
            && (next.WantClient? ==> next == phase)
            && (next.ServerDone? ==>
                  && next.hello == phase.hello
                  && a.sign(Transcript(ServerHelloWire(phase.hello), next.clientWire)) == Some(next.signature)
                  && IsHelloWire(next.clientWire, next.client, cfg.sign.insecure)
                  && next.client.connDigest in cfg.authorized
                  && next.clientBundle == cfg.authorized[next.client.connDigest]
                  && cfg.sign.PeerVerifier(next.clientBundle).Endorsed(
                       table, next.clientWire[1..1 + n], ClientHelloInput(phase.hello.unique, next.client)))
  {
    hide Hdlc.Decoded, DeserializeHandshake, PeekClientHello, ConnVerify.Endorsed, EncodeClientHello;
    var next := ServerStep(cfg, phase, frame, table, a).phase;
    if next.ServerDone? {
      var wire := next.clientWire;
      var keys := Keys(Some(phase.hello.unique), Some(cfg.sign.PeerVerifier(next.clientBundle)), cfg.sign.insecure);
      assert DeserializeHandshake(wire, keys, table) == Ok(ClientHelloPacket(next.client));
      ClientHelloWireIsCanonical(wire, next.client, keys, table);
    }
  }

  /** How a session may change. */
  ghost predicate Follows(s: Session, next: Session) {
    && next.Sign() == s.Sign() && next.side.ServerSide? == s.side.ServerSide?
    && (s.side.ServerSide? ==> next.side.hello == s.side.hello)
    && (s.packetKey.Some? ==> next.packetKey == s.packetKey)
    && (s.signed.Some? ==> next.signed == s.signed)
    && s.Wrote() <= next.Wrote()
  }

  lemma MadeIsRequired(s: Session, a: Answers)
    requires s.signed.Some? && SignsWell(a, s.Sign().insecure)
    ensures forall t :: t in Made(s.Sign(), s.signed.value.Message(), a) ==> ConnSigned(s, t.key, t.message)
  {
    hide Signed.Message;
  }

  lemma FrameMoveIsOk(s: Session, sha: Hash, frame: bytes, table: Table, a: Answers)
    requires s.Wants() && SessionOk(s, table, sha)
    requires SignsWell(a, s.Sign().insecure)
    ensures var m := FrameMove(s, sha, frame, table, a);
            && SessionOk(m.session, table + m.made, sha) && Follows(s, m.session)
            && (m.session.packetKey == s.packetKey || (a.packetKey.Some? && m.session.packetKey == a.packetKey))
            && m.session.Wrote() == []
            && (m.session.endpoint.Some? ==>
                  m.session.endpoint == Some(Start(Fresh(m.session.endpoint.value.transport.verifier.publicKey,
                                                         m.session.endpoint.value.transport.verifier.lastSuccess))))
            && (forall t :: t in m.made ==> ConnSigned(m.session, t.key, t.message))
  {
    match s.side
    case ClientSide(cfg, phase) => ClientMoveIsOk(s, cfg, phase, sha, frame, table, a);
    case ServerSide(cfg, hello, phase) => ServerMoveIsOk(s, cfg, hello, phase, sha, frame, table, a);
  }

  lemma ClientMoveIsOk(s: Session, cfg: ClientConfig, phase: ClientPhase, sha: Hash, frame: bytes, table: Table,
      a: Answers)
    requires s.side == ClientSide(cfg, phase) && phase.Wants() && SessionOk(s, table, sha)
    requires SignsWell(a, s.Sign().insecure)
    ensures var m := FrameMove(s, sha, frame, table, a);
            && SessionOk(m.session, table + m.made, sha) && Follows(s, m.session)
            && (m.session.packetKey == s.packetKey || (a.packetKey.Some? && m.session.packetKey == a.packetKey))
            && m.session.Wrote() == []
            && (m.session.endpoint.Some? ==>
                  m.session.endpoint == Some(Start(Fresh(m.session.endpoint.value.transport.verifier.publicKey,
                                                         m.session.endpoint.value.transport.verifier.lastSuccess))))
            && (forall t :: t in m.made ==> ConnSigned(m.session, t.key, t.message))
  {
    hide ClientStep, ConnVerify.Endorsed, ServerHelloWire, ClientHelloInput, Framed;
    ClientStepFacts(cfg, sha, phase, frame, table, a);
    var next := ClientStep(cfg, sha, phase, frame, table, a).phase;
    var m := FrameMove(s, sha, frame, table, a);
    if next.WantComplete? {
      HelloWireIs(next.own, a.sign(ClientHelloInput(next.hello.unique, next.own)).value, cfg.sign.insecure);
      MadeIsRequired(m.session, a);
    } else if next.ClientDone? {
      assert next.transcript[SERVER_HELLO_WIRE_LEN..] == phase.ownWire;
      assert table + m.made == table;
      FreshWriteSide(next.hello.packetKey, next.since);
    } else {
      assert table + m.made == table;
    }
  }

  lemma HelloWireIs(h: ClientHello, signature: bytes, insecure: bool)
    requires |signature| == ConnSignatureLen(insecure)
    ensures IsHelloWire(ClientHelloWire(h, signature), h, insecure)
  {
    hide EncodeClientHello;
    var wire := ClientHelloWire(h, signature);
    assert wire[1..1 + |signature|] == signature;
  }

  lemma ServerMoveIsOk(s: Session, cfg: ServerConfig, hello: ServerHello, phase: ServerPhase, sha: Hash, frame: bytes,
      table: Table, a: Answers)
    requires s.side == ServerSide(cfg, hello, phase) && phase.WantClient? && SessionOk(s, table, sha)
    requires SignsWell(a, s.Sign().insecure)
    ensures var m := FrameMove(s, sha, frame, table, a);
            && SessionOk(m.session, table + m.made, sha) && Follows(s, m.session)
            && m.session.packetKey == s.packetKey && m.session.Wrote() == []
            && (m.session.endpoint.Some? ==>
                  m.session.endpoint == Some(Start(Fresh(m.session.endpoint.value.transport.verifier.publicKey,
                                                         m.session.endpoint.value.transport.verifier.lastSuccess))))
            && (forall t :: t in m.made ==> ConnSigned(m.session, t.key, t.message))
  {
    hide ServerStep, ConnVerify.Endorsed, ServerHelloWire, ClientHelloWire, ClientHelloInput, Framed, Made;
    ServerStepFacts(cfg, phase, frame, table, a);
    var next := ServerStep(cfg, phase, frame, table, a).phase;
    var m := FrameMove(s, sha, frame, table, a);
    if next.ServerDone? {
      var n := ConnSignatureLen(cfg.sign.insecure);
      assert m.session.signed.value.Message() == ServerHelloWire(hello) + next.clientWire;
      MadeIsRequired(m.session, a);
      EndorsedStays(cfg.sign.PeerVerifier(next.clientBundle), table, table + m.made,
                    next.clientWire[1..1 + n], ClientHelloInput(hello.unique, next.client));
      FreshWriteSide(next.client.packetKey, next.since);
    } else {
      assert table + m.made == table;
    }
  }

  lemma UseMoveIsOk(s: Session, op: Op, table: Table, sha: Hash)
    requires SessionOk(s, table, sha) && s.endpoint.Some? && s.endpoint.value.transport.Valid()
    requires |s.endpoint.value.log| + 1 < 0x1_0000_0000_0000_0000
    requires op.WriteOp? || op.KeepaliveOp? ==> |op.signature| == ED25519_SIGNATURE_LEN
    ensures s.packetKey.Some?
    ensures var m := UseMove(s, op);
            && SessionOk(m.session, table + m.made, sha) && Follows(s, m.session)
            && m.session.packetKey == s.packetKey
            && (forall t :: t in m.made ==> HoldsKey(s, t.key) && IsSigned(m.session.Wrote(), t.message))
  {
    hide TransportRuns.Step, ConnVerify.Endorsed, Framed, PacketSignatureInput, IsHelloWire, ServerHelloWire,
        ClientHelloInput;
    var e, m := s.endpoint.value, UseMove(s, op);
    StepKeepsKey(e, op);
    StepKeepsWriteSide(e, op);
    var next := TransportRuns.Step(e, op);
    SessionStaysOk(s, table, table + m.made, sha);
    if next.log != e.log {
      var k: u64 := |e.log|;
      assert next.log[k] == next.log[|next.log| - 1];
      assert m.session.Wrote()[k] == next.log[k].data && next.log[k].counter == k;
      assert GenuineAt(next.log[k], k, s.packetKey.value, table + m.made);
    }
    assert Genuine(next.log, s.packetKey.value, table + m.made);
    hide WriteSide, Genuine;
  }

  // ------------------------------------------------------------------- the whole world

  /** A move that a session of `w` may make. */
  ghost predicate Legit(w: World, i: nat, m: Move, sha: Hash) {
    && i < |w.sessions| && SessionOk(m.session, w.table + m.made, sha) && Follows(w.sessions[i], m.session)
    && (m.session.packetKey != w.sessions[i].packetKey ==>
          && w.sessions[i].packetKey.None? && m.session.packetKey.Some?
          && FreshKey(w, m.session.packetKey.value) && m.session.Wrote() == [])
    && |m.session.Wrote()| < 0x1_0000_0000_0000_0000
    && (forall t :: t in m.made ==>
          ConnSigned(m.session, t.key, t.message) ||
          (HoldsKey(w.sessions[i], t.key) && IsSigned(m.session.Wrote(), t.message)))
  }

  lemma MovedSessionsOk(w: World, i: nat, m: Move, sha: Hash)
    requires SessionsOk(w, sha) && Legit(w, i, m, sha)
    ensures SessionsOk(Moved(w, i, m), sha)
  {
    hide SessionOk, Follows, ConnSigned, IsSigned, FreshKey;
    var next := Moved(w, i, m);
    forall j | 0 <= j < |next.sessions| ensures SessionOk(next.sessions[j], next.table, sha) {
      if j != i {
        SessionStaysOk(w.sessions[j], w.table, next.table, sha);
      }
    }
  }

  lemma MovedKeysApart(w: World, i: nat, m: Move, sha: Hash)
    requires KeysApart(w) && ComponentsApart(w) && Legit(w, i, m, sha)
    ensures KeysApart(Moved(w, i, m)) && ComponentsApart(Moved(w, i, m))
  {
    hide SessionOk, ConnSigned, IsSigned, Session.Wrote;
    var next := Moved(w, i, m);
    forall j, k | 0 <= j < |next.sessions| && 0 <= k < |next.sessions| && j != k
      ensures Apart(next.sessions[j], next.sessions[k])
    {
      assert Apart(w.sessions[j], w.sessions[k]) && Apart(w.sessions[k], w.sessions[j]);
      if m.session.packetKey != w.sessions[i].packetKey {
        assert Unseen(w.sessions[j], m.session.packetKey.value) && Unseen(w.sessions[k], m.session.packetKey.value);
      }
    }
    forall j, k | 0 <= j < |next.sessions| && 0 <= k < |next.sessions| && next.sessions[j].packetKey.Some?
      ensures Key(Ed25519, next.sessions[j].packetKey.value) !in Components(next.sessions[k].Sign().key)
    {
      assert next.sessions[k].Sign() == w.sessions[k].Sign();
      if j == i && m.session.packetKey != w.sessions[i].packetKey {
        assert Unseen(w.sessions[k], m.session.packetKey.value);
      }
    }
  }

  lemma MovedUnforged(w: World, i: nat, m: Move, sha: Hash)
    requires Unforged(w) && Legit(w, i, m, sha)
    requires KeysApart(Moved(w, i, m)) && ComponentsApart(Moved(w, i, m))
    ensures Unforged(Moved(w, i, m))
  {
    hide SessionOk, Session.Wrote, Signed.Message, Unforged, KeysApart, ComponentsApart;
    var next := Moved(w, i, m);
    forall t | t in next.table && Guarded(next, t.key) ensures WasSigned(next, t.key, t.message) {
      if t in m.made {
        MadeWasSigned(w, i, m, sha, t);
      } else {
        assert t in w.table;
        OldWasSigned(w, i, m, sha, t);
      }
    }
    assert Unforged(next) by { UnforgedIf(next); }
  }

  lemma UnforgedIf(w: World)
    requires forall t :: t in w.table && Guarded(w, t.key) ==> WasSigned(w, t.key, t.message)
    ensures Unforged(w)
  {
    hide Guarded, WasSigned;
  }

  lemma MadeWasSigned(w: World, i: nat, m: Move, sha: Hash, t: Triple)
    requires Legit(w, i, m, sha) && t in m.made && Guarded(Moved(w, i, m), t.key)
    requires KeysApart(Moved(w, i, m)) && ComponentsApart(Moved(w, i, m))
    ensures WasSigned(Moved(w, i, m), t.key, t.message)
  {
    hide SessionOk, Session.Wrote, Signed.Message, IsSigned, FreshKey;
    var next := Moved(w, i, m);
    assert next.sessions[i] == m.session;
    if t.key in w.honest {
      assert ConnSigned(m.session, t.key, t.message);
    } else {
      var j :| 0 <= j < |next.sessions| && HoldsKey(next.sessions[j], t.key);
      assert t.key !in Components(m.session.Sign().key);
      assert PacketSigned(m.session, t.key, t.message);
    }
  }

  lemma OldWasSigned(w: World, i: nat, m: Move, sha: Hash, t: Triple)
    requires Unforged(w) && Legit(w, i, m, sha) && t in w.table && Guarded(Moved(w, i, m), t.key)
    ensures WasSigned(Moved(w, i, m), t.key, t.message)
  {
    hide SessionOk, Session.Wrote, Signed.Message, IsSigned;
    var next := Moved(w, i, m);
    if t.key !in w.honest {
      var j :| 0 <= j < |next.sessions| && HoldsKey(next.sessions[j], t.key);
      if j == i && m.session.packetKey != w.sessions[i].packetKey {
        assert false;
      }
      assert HoldsKey(w.sessions[j], t.key);
    }
    assert Guarded(w, t.key) && WasSigned(w, t.key, t.message);
    if t.key in w.honest {
      var k :| 0 <= k < |w.sessions| && ConnSigned(w.sessions[k], t.key, t.message);
      assert ConnSigned(next.sessions[k], t.key, t.message);
    } else {
      var k :| 0 <= k < |w.sessions| && PacketSigned(w.sessions[k], t.key, t.message);
      assert next.sessions[k] == if k == i then m.session else w.sessions[k];
      SignedStays(w.sessions[k].Wrote(), next.sessions[k].Wrote(), t.message);
      assert PacketSigned(next.sessions[k], t.key, t.message);
    }
  }

  lemma SignedStays(wrote: seq<bytes>, more: seq<bytes>, message: bytes)
    requires IsSigned(wrote, message) && wrote <= more
    ensures IsSigned(more, message)
  {
    var k: u64 :| k < |wrote| && message == PacketSignatureInput(k, wrote[k]);
    assert message == PacketSignatureInput(k, more[k]);
  }

  lemma ReadSideStays(t: Transport, delivered: bytes, wrote: seq<bytes>, more: seq<bytes>)
    requires ReadSide(t, delivered, wrote) && wrote <= more
    ensures ReadSide(t, delivered, more)
  {
    hide Flatten;
    assert more[..t.verifier.counter] == wrote[..t.verifier.counter];
  }

  lemma MovedStreamsOk(w: World, i: nat, m: Move, sha: Hash)
    requires StreamsOk(w) && Legit(w, i, m, sha)
    requires forall j :: 0 <= j < |w.sessions| ==> StreamOk(m.session, Moved(w, i, m).sessions[j])
    ensures StreamsOk(Moved(w, i, m))
  {
    hide SessionOk, Session.Wrote, ReadSide, ConnSigned, IsSigned;
    var next := Moved(w, i, m);
    forall r, j | 0 <= r < |next.sessions| && 0 <= j < |next.sessions|
      ensures StreamOk(next.sessions[r], next.sessions[j])
    {
      if r != i {
        var reader := w.sessions[r];
        assert StreamOk(reader, w.sessions[j]);
        if j == i && reader.endpoint.Some? {
          if m.session.packetKey == w.sessions[i].packetKey {
            if HoldsKey(m.session, Key(Ed25519, reader.endpoint.value.transport.verifier.publicKey)) {
              ReadSideStays(reader.endpoint.value.transport, reader.endpoint.value.delivered,
                            w.sessions[i].Wrote(), m.session.Wrote());
            }
          } else {
            assert Unseen(reader, m.session.packetKey.value);
          }
        }
      }
    }
  }

  lemma MovedKeepsInv(w: World, i: nat, m: Move, sha: Hash)
    requires Inv(w, sha) && Legit(w, i, m, sha)
    requires forall j :: 0 <= j < |w.sessions| ==> StreamOk(m.session, Moved(w, i, m).sessions[j])
    ensures Inv(Moved(w, i, m), sha)
  {
    hide SessionsOk, KeysApart, ComponentsApart, Unforged, StreamsOk, Legit, StreamOk, Moved;
    MovedSessionsOk(w, i, m, sha);
    MovedKeysApart(w, i, m, sha);
    MovedUnforged(w, i, m, sha);
    MovedStreamsOk(w, i, m, sha);
  }

  /** A stream just established has delivered nothing. */
  lemma NewStreamOk(reader: Session, writer: Session, peer: Bytes32, now: nat)
    requires reader.endpoint == Some(Start(Fresh(peer, now)))
    ensures StreamOk(reader, writer)
  {
    assert writer.Wrote()[..0] == [];
  }

  lemma FrameInKeepsInv(w: World, sha: Hash, ev: Event)
    requires ev.FrameIn? && Inv(w, sha) && Enabled(w, ev)
    ensures Inv(Do(w, sha, ev), sha)
  {
    var s := w.sessions[ev.i];
    var m := FrameMove(s, sha, ev.frame, w.table, ev.a);
    assert SessionOk(s, w.table, sha) by { hide SessionOk; }
    FrameMoveIsOk(s, sha, ev.frame, w.table, ev.a);
    hide SessionOk, FrameMove, KeysApart, ComponentsApart, Unforged, StreamsOk, SessionsOk, ConnSigned, IsSigned;
    PacketKeyIsNew(s, m.session);
    assert Legit(w, ev.i, m, sha);
    forall j | 0 <= j < |w.sessions| ensures StreamOk(m.session, Moved(w, ev.i, m).sessions[j]) {
      if m.session.endpoint.Some? {
        var t := m.session.endpoint.value.transport;
        NewStreamOk(m.session, Moved(w, ev.i, m).sessions[j], t.verifier.publicKey, t.verifier.lastSuccess);
      }
    }
    MovedKeepsInv(w, ev.i, m, sha);
  }

  lemma PacketKeyIsNew(s: Session, next: Session)
    requires Follows(s, next)
    ensures next.packetKey != s.packetKey ==> s.packetKey.None? && next.packetKey.Some?
  {
  }

  lemma UseKeepsInv(w: World, sha: Hash, ev: Event)
    requires ev.Use? && Inv(w, sha) && Enabled(w, ev)
    ensures Inv(Do(w, sha, ev), sha)
  {
    var s, op := w.sessions[ev.i], ev.op;
    var m := UseMove(s, op);
    assert SessionOk(s, w.table, sha) by { hide SessionOk; }
    UseMoveIsOk(s, op, w.table, sha);
    hide FrameMove, KeysApart, ComponentsApart, StreamsOk, SessionsOk, ConnSigned, IsSigned, TransportRuns.Step,
        Unforged;
    StepKeepsKey(s.endpoint.value, op);
    assert |m.session.Wrote()| < 0x1_0000_0000_0000_0000;
    assert Legit(w, ev.i, m, sha) by { hide SessionOk, UseMove; }
    forall j | 0 <= j < |w.sessions| ensures StreamOk(m.session, Moved(w, ev.i, m).sessions[j]) {
      UsedStreamOk(w, sha, ev.i, op, m, j);
    }
    hide UseMove, SessionOk, Legit;
    MovedKeepsInv(w, ev.i, m, sha);
  }

  lemma ApartAt(w: World, i: nat, j: nat)
    requires KeysApart(w) && i < |w.sessions| && j < |w.sessions|
    ensures i == j || Apart(w.sessions[i], w.sessions[j])
  {
  }

  /** What the session at `j` has signed is all that its packet key verifies. */
  lemma OnlySessionSigned(w: World, sha: Hash, j: nat)
    requires Unforged(w) && KeysApart(w) && SessionsOk(w, sha) && j < |w.sessions| && w.sessions[j].packetKey.Some?
    ensures |w.sessions[j].Wrote()| < 0x1_0000_0000_0000_0000
    ensures OnlySigned(w.table, w.sessions[j].packetKey.value, w.sessions[j].Wrote())
  {
    var writer := w.sessions[j];
    var pk := writer.packetKey.value;
    assert SessionOk(writer, w.table, sha) by { hide SessionOk; }
    hide PacketSignatureInput, ConnSigned, Session.Wrote;
    assert |writer.Wrote()| < 0x1_0000_0000_0000_0000 by { WroteIsShort(writer, w.table, sha); }
    forall t | t in w.table && t.key == Key(Ed25519, pk)
      ensures exists k: u64 :: k < |writer.Wrote()| && t.message == PacketSignatureInput(k, writer.Wrote()[k])
    {
      assert HoldsKey(writer, t.key);
      assert Guarded(w, t.key) && t.key !in w.honest;
      assert WasSigned(w, t.key, t.message);
      var k :| 0 <= k < |w.sessions| && PacketSigned(w.sessions[k], t.key, t.message);
      ApartAt(w, j, k);
    }
  }

  lemma WroteIsShort(s: Session, table: Table, sha: Hash)
    requires SessionOk(s, table, sha)
    ensures |s.Wrote()| < 0x1_0000_0000_0000_0000
  {
  }

  lemma UsedStreamOk(w: World, sha: Hash, i: nat, op: Op, m: Move, j: nat)
    requires Inv(w, sha) && Enabled(w, Use(i, op)) && m == UseMove(w.sessions[i], op) && j < |w.sessions|
    requires Follows(w.sessions[i], m.session)
    ensures StreamOk(m.session, Moved(w, i, m).sessions[j])
  {
    hide SessionsOk, KeysApart, ComponentsApart, Unforged, TransportRuns.Step, ReadSide, OnlySigned, FrameMove;
    var s, writer, next := w.sessions[i], w.sessions[j], Moved(w, i, m).sessions[j];
    var e := s.endpoint.value;
    StepKeepsKey(e, op);
    var peer := Key(Ed25519, e.transport.verifier.publicKey);
    if HoldsKey(next, peer) {
      assert HoldsKey(writer, peer);
      assert StreamOk(s, writer);
      OnlySessionSigned(w, sha, j);
      BoundBy(e, w.table, writer.Wrote());
      StepKeepsReadSide(e, op, writer.Wrote());
      var used := TransportRuns.Step(e, op);
      ReadSideStays(used.transport, used.delivered, writer.Wrote(), next.Wrote());
    }
  }

  lemma BoundBy(e: Endpoint, table: Table, wrote: seq<bytes>)
    requires |wrote| < 0x1_0000_0000_0000_0000 && ReadSide(e.transport, e.delivered, wrote)
    requires OnlySigned(table, e.transport.verifier.publicKey, wrote)
    ensures Bound(e.transport.verifier, table, wrote)
  {
  }

  lemma ForgeKeepsInv(w: World, sha: Hash, ev: Event)
    requires ev.Forge? && Inv(w, sha) && Enabled(w, ev)
    ensures Inv(Do(w, sha, ev), sha)
  {
    hide SessionOk, StreamOk, ConnSigned, PacketSigned;
    var next := Do(w, sha, ev);
    forall i | 0 <= i < |next.sessions| ensures SessionOk(next.sessions[i], next.table, sha) {
      SessionStaysOk(w.sessions[i], w.table, next.table, sha);
    }
    assert KeysApart(next) && ComponentsApart(next) && StreamsOk(next);
    forall t | t in next.table && Guarded(next, t.key) ensures WasSigned(next, t.key, t.message) {
      assert Guarded(w, t.key) && WasSigned(w, t.key, t.message);
    }
  }

  /** A new session has signed nothing and has no stream. */
  lemma OpenKeepsInv(w: World, sha: Hash, s: Session)
    requires Inv(w, sha) && SessionOk(s, w.table, sha) && s.signed.None? && s.endpoint.None?
    requires NoPacketKey(w, s.Sign().key)
    requires s.packetKey.Some? ==>
               FreshKey(w, s.packetKey.value) && Key(Ed25519, s.packetKey.value) !in Components(s.Sign().key)
    requires s.side.ServerSide? ==> FreshUnique(w, s.side.hello.unique)
    ensures Inv(w.(sessions := w.sessions + [s]), sha)
  {
    hide SessionOk, ReadSide, ConnSigned, IsSigned;
    var n, next := |w.sessions|, w.(sessions := w.sessions + [s]);
    assert forall i :: 0 <= i < n ==> next.sessions[i] == w.sessions[i];
    assert next.sessions[n] == s;
    assert SessionsOk(next, sha);
    forall i | 0 <= i < n ensures Apart(next.sessions[i], s) && Apart(s, next.sessions[i]) {
      assert s.packetKey.Some? ==> Unseen(w.sessions[i], s.packetKey.value);
    }
    assert forall i, j :: 0 <= i < n && 0 <= j < n && i != j ==> Apart(w.sessions[i], w.sessions[j]);
    assert KeysApart(next);
    forall i, j | 0 <= i < |next.sessions| && 0 <= j < |next.sessions| && next.sessions[i].packetKey.Some?
      ensures Key(Ed25519, next.sessions[i].packetKey.value) !in Components(next.sessions[j].Sign().key)
    {
      if i == n && j < n {
        assert Unseen(w.sessions[j], s.packetKey.value);
      }
    }
    forall i, j | 0 <= i < |next.sessions| &&
        0 <= j < |next.sessions| ensures StreamOk(next.sessions[i], next.sessions[j]) {
      if i < n {
        if j < n {
          assert StreamOk(w.sessions[i], w.sessions[j]);
        } else if s.packetKey.Some? {
          assert Unseen(w.sessions[i], s.packetKey.value);
        }
      }
    }
    OpenKeepsUnforged(w, s);
  }

  lemma OpenKeepsUnforged(w: World, s: Session)
    requires Unforged(w)
    requires s.packetKey.Some? ==> FreshKey(w, s.packetKey.value)
    ensures Unforged(w.(sessions := w.sessions + [s]))
  {
    hide ConnSigned, IsSigned, Unseen;
    var n, next := |w.sessions|, w.(sessions := w.sessions + [s]);
    assert forall i :: 0 <= i < n ==> next.sessions[i] == w.sessions[i];
    forall t | t in next.table && Guarded(next, t.key) ensures WasSigned(next, t.key, t.message) {
      if t.key in w.honest {
        assert Guarded(w, t.key) && WasSigned(w, t.key, t.message);
        var k :| 0 <= k < n && ConnSigned(w.sessions[k], t.key, t.message);
        assert ConnSigned(next.sessions[k], t.key, t.message);
      } else {
        var j :| 0 <= j < |next.sessions| && HoldsKey(next.sessions[j], t.key);
        assert j < n && HoldsKey(w.sessions[j], t.key);
        assert Guarded(w, t.key) && WasSigned(w, t.key, t.message);
        var k :| 0 <= k < n && PacketSigned(w.sessions[k], t.key, t.message);
        assert PacketSigned(next.sessions[k], t.key, t.message);
      }
    }
  }

  lemma StepKeepsInv(w: World, sha: Hash, ev: Event)
    requires Inv(w, sha) && Enabled(w, ev)
    ensures Inv(Do(w, sha, ev), sha)
  {
    match ev
    case OpenClient(cfg) =>
      hide Inv, NoPacketKey;
      OpenKeepsInv(w, sha, Session(ClientSide(cfg, WantHello), None, None, None));
    case OpenServer(cfg, unique, packetKey) =>
      hide Inv, NoPacketKey, FreshKey, FreshUnique;
      var hello := ServerHelloOf(cfg, sha, unique, packetKey);
      OpenKeepsInv(w, sha, Session(ServerSide(cfg, hello, WantClient(hello)), None, Some(packetKey), None));
    case FrameIn(_, _, _) => FrameInKeepsInv(w, sha, ev);
    case Use(_, _) => UseKeepsInv(w, sha, ev);
    case Forge(_) => ForgeKeepsInv(w, sha, ev);
  }

  /** Over every run. */
  lemma {:induction false} RunKeepsInv(w: World, sha: Hash, events: seq<Event>, end: World)
    requires Inv(w, sha) && Runs(w, sha, events, end)
    ensures Inv(end, sha)
    decreases |events|
  {
    hide Inv, Enabled, Do;
    if events != [] {
      StepKeepsInv(w, sha, events[0]);
      RunKeepsInv(Do(w, sha, events[0]), sha, events[1..], end);
    }
  }

  lemma {:induction false} RunsAppend(w: World, sha: Hash, x: seq<Event>, middle: World, y: seq<Event>, end: World)
    requires Runs(w, sha, x, middle) && Runs(middle, sha, y, end)
    ensures Runs(w, sha, x + y, end)
    decreases |x|
  {
    hide Enabled, Do;
    if x == [] {
      assert x + y == y;
    } else {
      assert (x + y)[0] == x[0] && (x + y)[1..] == x[1..] + y;
      RunsAppend(Do(w, sha, x[0]), sha, x[1..], middle, y, end);
    }
  }

  lemma NothingYet(honest: set<Key>, sha: Hash)
    ensures Inv(World([], {}, honest), sha)
  {
  }
}
