/** Any number of client and server sessions on a network that may do anything to bytes:
    what every step of every run keeps. */
module World {
  import opened Bytes
  import opened Wrappers
  import opened FaithfulStreams
  import opened Handshake
  import opened Packets
  import opened PacketLaws
  import opened Signatures
  import opened TransportRuns

  // -------------------------------------------------------------------------- sessions

  /** The one message that a session has its ConnSign key sign. */
  datatype Signed =
    | HelloSigned(serverUnique: u64, hello: ClientHello)
    | TranscriptSigned(server: ServerHello, client: ClientHello, clientSignature: bytes)
  {
    function Message(): bytes {
      match this
      case HelloSigned(serverUnique, hello) => ClientHelloInput(serverUnique, hello)
      case TranscriptSigned(server, client, clientSignature) =>
        Transcript(ServerHelloWire(server), ClientHelloWire(client, clientSignature))
    }
  }

  datatype Side =
    | ClientSide(client: ClientConfig, clientPhase: ClientPhase)
    | ServerSide(server: ServerConfig, hello: ServerHello, serverPhase: ServerPhase)

  /** `packetKey` and `endpoint` are the packet key and the payload stream, once made. */
  datatype Session = Session(side: Side, signed: Option<Signed>, packetKey: Option<Bytes32>, endpoint: Option<Endpoint>)
  {
    function Sign(): ConnSign {
      match side
      case ClientSide(cfg, _) => cfg.sign
      case ServerSide(cfg, _, _) => cfg.sign
    }

    /** The payloads it has signed with its packet key. */
    function Wrote(): seq<bytes> {
      if endpoint.None? then [] else Payloads(endpoint.value.log)
    }

    predicate Wants() {
      match side
      case ClientSide(_, phase) => phase.Wants()
      case ServerSide(_, _, phase) => phase.WantClient?
    }
  }

  /** `table` is what the signature library accepts so far; `honest` are ConnSign key
      components that only sessions use. */
  datatype World = World(sessions: seq<Session>, table: Table, honest: set<Key>)

  /** The components whose signatures a mode calls for. */
  function Required(key: ConnKey, insecure: bool): set<Key> {
    if insecure then {Key(Ed25519, key.ed25519)} else Components(key)
  }

  predicate ConnSigned(s: Session, key: Key, message: bytes) {
    s.signed.Some? && s.signed.value.Message() == message && key in Required(s.Sign().key, s.Sign().insecure)
  }

  ghost predicate PacketSigned(s: Session, key: Key, message: bytes) {
    s.packetKey.Some? && key == Key(Ed25519, s.packetKey.value) && IsSigned(s.Wrote(), message)
  }

  ghost predicate IsSigned(wrote: seq<bytes>, message: bytes) {
    exists k: u64 :: k < |wrote| && message == PacketSignatureInput(k, wrote[k])
  }

  // ---------------------------------------------------------------------------- events

  /** What may happen next. A frame that comes in is whatever the network makes of it, and
      so are the polls of an established stream. */
  datatype Event =
    | OpenClient(client: ClientConfig)
    | OpenServer(server: ServerConfig, unique: u64, packetKey: Bytes32)
    | FrameIn(i: nat, frame: bytes, a: Answers)
    | Use(i: nat, op: Op)
    | Forge(triple: Triple)

  /** A new packet key is unlike any key seen before. */
  ghost predicate FreshKey(w: World, pk: Bytes32) {
    && Key(Ed25519, pk) !in w.honest
    && (forall t :: t in w.table ==> t.key != Key(Ed25519, pk))
    && (forall i :: 0 <= i < |w.sessions| ==> Unseen(w.sessions[i], pk))
  }

  predicate Unseen(s: Session, pk: Bytes32) {
    && s.packetKey != Some(pk) && Key(Ed25519, pk) !in Components(s.Sign().key)
    && (s.endpoint.Some? ==> s.endpoint.value.transport.verifier.publicKey != pk)
  }

  /** No session's packet key doubles as this ConnSign key. */
  ghost predicate NoPacketKey(w: World, key: ConnKey) {
    forall i :: 0 <= i < |w.sessions| && w.sessions[i].packetKey.Some? ==>
      Key(Ed25519, w.sessions[i].packetKey.value) !in Components(key)
  }

  ghost predicate FreshUnique(w: World, unique: u64) {
    forall i :: 0 <= i < |w.sessions| && w.sessions[i].side.ServerSide? ==> w.sessions[i].side.hello.unique != unique
  }

  /** A key that no one but the sessions can sign with. */
  ghost predicate Guarded(w: World, key: Key) {
    key in w.honest || exists i :: 0 <= i < |w.sessions| && HoldsKey(w.sessions[i], key)
  }

  predicate HoldsKey(s: Session, key: Key) {
    s.packetKey.Some? && key == Key(Ed25519, s.packetKey.value)
  }

  ghost predicate WasSigned(w: World, key: Key, message: bytes) {
    if key in w.honest
    then exists i :: 0 <= i < |w.sessions| && ConnSigned(w.sessions[i], key, message)
    else exists i :: 0 <= i < |w.sessions| && PacketSigned(w.sessions[i], key, message)
  }

  /** ConnSign signatures have the length of the mode. */
  ghost predicate SignsWell(a: Answers, insecure: bool) {
    forall message :: a.sign(message).Some? ==> |a.sign(message).value| == ConnSignatureLen(insecure)
  }

  ghost predicate Enabled(w: World, ev: Event) {
    match ev
    case OpenClient(cfg) => NoPacketKey(w, cfg.sign.key)
    case OpenServer(cfg, unique, packetKey) =>
      && FreshUnique(w, unique) && FreshKey(w, packetKey) && NoPacketKey(w, cfg.sign.key)
      && Key(Ed25519, packetKey) !in Components(cfg.sign.key)
    case FrameIn(i, _, a) =>
      && i < |w.sessions| && w.sessions[i].Wants() && SignsWell(a, w.sessions[i].Sign().insecure)
      && (w.sessions[i].packetKey.None? && a.packetKey.Some? ==> FreshKey(w, a.packetKey.value))
    case Use(i, op) =>
      && i < |w.sessions| && w.sessions[i].endpoint.Some? && w.sessions[i].packetKey.Some?
      && w.sessions[i].endpoint.value.transport.Valid()
      && (op.ReadOp? ==> op.table == w.table)
      && (op.WriteOp? || op.KeepaliveOp? ==> |op.signature| == ED25519_SIGNATURE_LEN)
      && |w.sessions[i].endpoint.value.log| + 1 < 0x1_0000_0000_0000_0000
    case Forge(t) => Guarded(w, t.key) ==> WasSigned(w, t.key, t.message)
  }

  /** A session's next state, and what the library will accept from now on. */
  datatype Move = Move(session: Session, made: set<Triple>)

  /** What the library accepts once it has answered a session that asked for a signature. */
  ghost function Made(sign: ConnSign, message: bytes, a: Answers): set<Triple>
    requires SignsWell(a, sign.insecure)
  {
    match a.sign(message)
    case None => {}
    case Some(signature) => ComponentTriples(sign.key, sign.insecure, message, signature)
  }

  ghost function FrameMove(s: Session, sha: Hash, frame: bytes, table: Table, a: Answers): Move
    requires s.Wants() && SignsWell(a, s.Sign().insecure)
  {
    match s.side
    case ClientSide(cfg, phase) =>
      var next := ClientStep(cfg, sha, phase, frame, table, a).phase;
      var moved := s.(side := ClientSide(cfg, next));
      if next.WantComplete? then
        var signed := HelloSigned(next.hello.unique, next.own);
        Move(moved.(signed := Some(signed), packetKey := Some(next.own.packetKey)), Made(cfg.sign, signed.Message(), a))
      else if next.ClientDone? then
        Move(moved.(endpoint := Some(Start(ClientTransport(next)))), {})
      else Move(moved, {})
    case ServerSide(cfg, hello, phase) =>
      var next := ServerStep(cfg, phase, frame, table, a).phase;
      var moved := s.(side := ServerSide(cfg, hello, next));
      if next.ServerDone? then
        var n := ConnSignatureLen(cfg.sign.insecure);
        var clientSignature := if |next.clientWire| > n then next.clientWire[1..1 + n] else [];
        var signed := TranscriptSigned(hello, next.client, clientSignature);
        Move(moved.(signed := Some(signed), endpoint := Some(Start(ServerTransport(next)))),
             Made(cfg.sign, Transcript(ServerHelloWire(hello), next.clientWire), a))
      else Move(moved, {})
  }

  function UseMove(s: Session, op: Op): Move
    requires s.endpoint.Some? && s.packetKey.Some? && s.endpoint.value.transport.Valid()
  {
    var e := s.endpoint.value;
    var next := TransportRuns.Step(e, op);
    var made :=
      if |next.log| > |e.log| then
        var last := next.log[|next.log| - 1];
        {Triple(Key(Ed25519, s.packetKey.value), PacketSignatureInput(last.counter, last.data), last.signature)}
      else {};
    Move(s.(endpoint := Some(next)), made)
  }

  ghost function Do(w: World, sha: Hash, ev: Event): World
    requires Enabled(w, ev)
  {
    match ev
    case OpenClient(cfg) =>
      w.(sessions := w.sessions + [Session(ClientSide(cfg, WantHello), None, None, None)])
    case OpenServer(cfg, unique, packetKey) =>
      var hello := ServerHelloOf(cfg, sha, unique, packetKey);
      w.(sessions := w.sessions + [Session(ServerSide(cfg, hello, WantClient(hello)), None, Some(packetKey), None)])
    case FrameIn(i, frame, a) => Moved(w, i, FrameMove(w.sessions[i], sha, frame, w.table, a))
    case Use(i, op) => Moved(w, i, UseMove(w.sessions[i], op))
    case Forge(t) => w.(table := w.table + {t})
  }

  function Moved(w: World, i: nat, move: Move): World
    requires i < |w.sessions|
  {
    w.(sessions := w.sessions[i := move.session], table := w.table + move.made)
  }

  ghost predicate Runs(w: World, sha: Hash, events: seq<Event>, end: World)
    decreases |events|
  {
    if events == [] then end == w
    else Enabled(w, events[0]) && Runs(Do(w, sha, events[0]), sha, events[1..], end)
  }

  // ------------------------------------------------------------------------- invariants

  predicate IsHelloWire(wire: bytes, h: ClientHello, insecure: bool) {
    var n := ConnSignatureLen(insecure);
    |wire| == 1 + n + CLIENT_HELLO_BODY_LEN && wire == ClientHelloWire(h, wire[1..1 + n])
  }

  ghost predicate ClientOk(s: Session, cfg: ClientConfig, phase: ClientPhase, table: Table, sha: Hash) {
    && (s.signed.None? ==> s.packetKey.None?)
    && (s.signed.Some? ==>
          && s.signed.value.HelloSigned? && s.packetKey == Some(s.signed.value.hello.packetKey)
          && s.signed.value.hello.connDigest == sha(cfg.sign.PublicKeyBytes()))
    && (s.endpoint.Some? <==> phase.ClientDone?)
    && match phase
       case WantHello => s.signed == None
       case WantPubkey(hello, helloWire) => s.signed == None && helloWire == ServerHelloWire(hello)
       case WantComplete(hello, helloWire, bundle, own, ownWire, _) =>
         && s.signed == Some(HelloSigned(hello.unique, own)) && helloWire == ServerHelloWire(hello)
         && IsHelloWire(ownWire, own, cfg.sign.insecure)
         && sha(bundle) == hello.connDigest && cfg.accept(hello, bundle)
       case ClientDone(hello, own, transcript, bundle, signature, _) =>
         && s.signed == Some(HelloSigned(hello.unique, own))
         && sha(bundle) == hello.connDigest && cfg.accept(hello, bundle)
         && |transcript| > SERVER_HELLO_WIRE_LEN
         && transcript == ServerHelloWire(hello) + transcript[SERVER_HELLO_WIRE_LEN..]
         && IsHelloWire(transcript[SERVER_HELLO_WIRE_LEN..], own, cfg.sign.insecure)
         && cfg.sign.PeerVerifier(bundle).Endorsed(table, signature, transcript)
         && s.endpoint.value.transport.verifier.publicKey == hello.packetKey
       case ClientRefused => true
  }

  ghost predicate ServerOk(s: Session, cfg: ServerConfig, hello: ServerHello, phase: ServerPhase, table: Table,
      sha: Hash) {
    && hello.connDigest == sha(cfg.sign.PublicKeyBytes()) && s.packetKey == Some(hello.packetKey)
    && (s.endpoint.Some? <==> phase.ServerDone?) && (s.signed.Some? <==> phase.ServerDone?)
    && match phase
       case WantClient(h) => h == hello
       case ServerDone(h, client, clientBundle, clientWire, _, _) =>
         && h == hello && IsHelloWire(clientWire, client, cfg.sign.insecure)
         && s.signed == Some(TranscriptSigned(hello, client, clientWire[1..1 + ConnSignatureLen(cfg.sign.insecure)]))
         && client.connDigest in cfg.authorized && clientBundle == cfg.authorized[client.connDigest]
         && cfg.sign.PeerVerifier(clientBundle).Endorsed(
              table, clientWire[1..1 + ConnSignatureLen(cfg.sign.insecure)], ClientHelloInput(hello.unique, client))
         && s.endpoint.value.transport.verifier.publicKey == client.packetKey
       case ServerRefused => true
  }

  ghost predicate SessionOk(s: Session, table: Table, sha: Hash) {
    && (s.endpoint.Some? ==>
          && s.packetKey.Some? && WriteSide(s.endpoint.value) && |s.endpoint.value.log| < 0x1_0000_0000_0000_0000
          && Genuine(s.endpoint.value.log, s.packetKey.value, table))
    && match s.side
       case ClientSide(cfg, phase) => ClientOk(s, cfg, phase, table, sha)
       case ServerSide(cfg, hello, phase) => ServerOk(s, cfg, hello, phase, table, sha)
  }

  ghost predicate SessionsOk(w: World, sha: Hash) {
    forall i :: 0 <= i < |w.sessions| ==> SessionOk(w.sessions[i], w.table, sha)
  }

  /** Packet keys and server challenges belong to one session, and packet keys are used
      for nothing else. */
  ghost predicate KeysApart(w: World) {
    && (forall i, j :: 0 <= i < |w.sessions| && 0 <= j < |w.sessions| && i != j ==>
          Apart(w.sessions[i], w.sessions[j]))
    && (forall i :: 0 <= i < |w.sessions| && w.sessions[i].packetKey.Some? ==>
          Key(Ed25519, w.sessions[i].packetKey.value) !in w.honest)
  }

  predicate Apart(s: Session, t: Session) {
    && (s.packetKey.Some? ==> s.packetKey != t.packetKey)
    && (s.side.ServerSide? && t.side.ServerSide? ==> s.side.hello.unique != t.side.hello.unique)
  }

  ghost predicate ComponentsApart(w: World) {
    forall i, j :: 0 <= i < |w.sessions| && 0 <= j < |w.sessions| && w.sessions[i].packetKey.Some? ==>
      Key(Ed25519, w.sessions[i].packetKey.value) !in Components(w.sessions[j].Sign().key)
  }

  /** Whatever the library accepts under a guarded key, a session did sign. */
  ghost predicate Unforged(w: World) {
    forall t :: t in w.table && Guarded(w, t.key) ==> WasSigned(w, t.key, t.message)
  }

  /** Every established stream has delivered a prefix of what the session that holds its
      peer's packet key wrote. */
  ghost predicate StreamsOk(w: World) {
    forall i, j :: 0 <= i < |w.sessions| && 0 <= j < |w.sessions| ==> StreamOk(w.sessions[i], w.sessions[j])
  }

  ghost predicate StreamOk(reader: Session, writer: Session) {
    reader.endpoint.Some? && HoldsKey(writer, Key(Ed25519, reader.endpoint.value.transport.verifier.publicKey)) ==>
      ReadSide(reader.endpoint.value.transport, reader.endpoint.value.delivered, writer.Wrote())
  }

  ghost predicate Inv(w: World, sha: Hash) {
    SessionsOk(w, sha) && KeysApart(w) && ComponentsApart(w) && Unforged(w) && StreamsOk(w)
  }
}
