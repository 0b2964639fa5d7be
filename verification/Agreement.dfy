/** What the handshake and the payload stream come to together, over every run of any
    number of sessions on a hostile network. */
module Agreement {
  import AuthorizedKeys
  import opened Bytes
  import opened Wrappers
  import opened Handshake
  import opened Packets
  import opened PacketLaws
  import opened Signatures
  import opened TransportRuns
  import opened World
  import opened WorldSteps

  /** A run from nothing. */
  ghost predicate Reachable(w: World, sha: Hash, events: seq<Event>) {
    Runs(World([], {}, w.honest), sha, events, w)
  }

  lemma ReachableIsOk(w: World, sha: Hash, events: seq<Event>)
    requires Reachable(w, sha, events)
    ensures Inv(w, sha)
  {
    NothingYet(w.honest, sha);
    RunKeepsInv(World([], {}, w.honest), sha, events, w);
  }

  /** One of the components that the mode calls for is used by sessions only: with both
      components called for, one honest is enough. */
  predicate Trusted(bundle: bytes, insecure: bool, honest: set<Key>) {
    DecodeConnPublicKey(bundle).Some? &&
    exists k :: k in Required(DecodeConnPublicKey(bundle).value, insecure) && k in honest
  }

  lemma MessageInjective(x: Signed, y: Signed)
    requires x.Message() == y.Message()
    ensures x == y
  {
    hide ServerHelloWire, ClientHelloWire, ClientHelloInput;
    match x
    case HelloSigned(unique, hello) =>
      if y.TranscriptSigned? {
        SignedInputsDisjoint(unique, hello, y.server, y.client, y.clientSignature);
      } else {
        ClientHelloInputInjective(unique, hello, y.serverUnique, y.hello);
      }
    case TranscriptSigned(server, client, signature) =>
      if y.HelloSigned? {
        SignedInputsDisjoint(y.serverUnique, y.hello, server, client, signature);
      } else {
        TranscriptInjective(server, client, signature, y.server, y.client, y.clientSignature);
      }
  }

  /** An endorsement by a trusted key was signed by a session of that component. */
  lemma EndorsedWasSigned(w: World, v: ConnVerify, signature: bytes, message: bytes)
    requires Unforged(w) && v.Endorsed(w.table, signature, message) && Trusted(v.bundle, v.insecure, w.honest)
    ensures exists i, k :: 0 <= i < |w.sessions| && k in w.honest && ConnSigned(w.sessions[i], k, message)
  {
    hide ConnSigned, IsSigned;
    var key := DecodeConnPublicKey(v.bundle).value;
    var k :| k in Required(key, v.insecure) && k in w.honest;
    var triples := ComponentTriples(key, v.insecure, message, signature);
    var part := if v.insecure then signature
                else if k.algorithm == MlDsa44 then signature[..ML_DSA_44_SIGNATURE_LEN]
                else signature[ML_DSA_44_SIGNATURE_LEN..];
    var t := Triple(k, message, part);
    assert t in triples && t in w.table;
    assert Guarded(w, k) && WasSigned(w, k, message);
    var i :| 0 <= i < |w.sessions| && ConnSigned(w.sessions[i], k, message);
  }

  // ------------------------------------------------------------------- the client's view

  predicate ClientEstablished(s: Session) { s.side.ClientSide? && s.side.clientPhase.ClientDone? }

  predicate ServerEstablished(s: Session) { s.side.ServerSide? && s.side.serverPhase.ServerDone? }

  /** The two ends of one connection: both hellos are the same, and so the challenges, the
      packet keys and the key digests; and so are the modes. */
  predicate Paired(client: Session, server: Session)
    requires ClientEstablished(client) && ServerEstablished(server)
  {
    && server.side.hello == client.side.clientPhase.hello
    && server.side.serverPhase.client == client.side.clientPhase.own
    && server.signed.Some? && server.signed.value.TranscriptSigned?
    && server.signed.value.server == server.side.hello && server.signed.value.client == server.side.serverPhase.client
    && server.signed.value.Message() == client.side.clientPhase.transcript
    && server.Sign().insecure == client.Sign().insecure
  }

  /** Session `j` is the server end of the connection that client session `i` completed. */
  predicate IsPartner(w: World, i: nat, j: nat)
    requires i < |w.sessions| && ClientEstablished(w.sessions[i])
  {
    j < |w.sessions| && ServerEstablished(w.sessions[j]) && Paired(w.sessions[i], w.sessions[j])
  }

  /** What either end reads is a prefix of what the other has written. */
  ghost predicate Linked(x: Session, y: Session)
    requires x.endpoint.Some? && y.endpoint.Some?
  {
    && y.packetKey == Some(x.endpoint.value.transport.verifier.publicKey)
    && x.endpoint.value.delivered <= Flatten(y.Wrote())
  }

  lemma TranscriptShape(client: Session, table: Table, sha: Hash)
    requires SessionOk(client, table, sha) && ClientEstablished(client)
    ensures var phase, n := client.side.clientPhase, ConnSignatureLen(client.Sign().insecure);
            && |phase.transcript| == 78 + 1 + n + 72
            && phase.transcript == Transcript(ServerHelloWire(phase.hello),
                 ClientHelloWire(phase.own, phase.transcript[79..79 + n]))
  {
    hide ServerHelloWire, EncodeClientHello, ConnVerify.Endorsed, WriteSide;
    var phase, n := client.side.clientPhase, ConnSignatureLen(client.Sign().insecure);
    var rest := phase.transcript[SERVER_HELLO_WIRE_LEN..];
    assert rest[1..1 + n] == phase.transcript[79..79 + n];
  }

  /** A client completes on a trusted bundle only if a server session signed its very
      transcript. */
  lemma ClientIsPaired(w: World, sha: Hash, i: nat)
    requires Inv(w, sha) && i < |w.sessions| && ClientEstablished(w.sessions[i])
    requires Trusted(w.sessions[i].side.clientPhase.bundle, w.sessions[i].Sign().insecure, w.honest)
    ensures exists j: nat :: IsPartner(w, i, j)
  {
    hide SessionOk, StreamOk, ConnVerify.Endorsed, KeysApart, ComponentsApart, Unforged, Signed.Message, Trusted,
        Transcript;
    var s := w.sessions[i];
    var phase, n := s.side.clientPhase, ConnSignatureLen(s.Sign().insecure);
    assert SessionOk(s, w.table, sha);
    TranscriptShape(s, w.table, sha);
    ClientFacts(s, w.table, sha);
    EndorsedWasSigned(w, s.Sign().PeerVerifier(phase.bundle), phase.signature, phase.transcript);
    var j, k :| 0 <= j < |w.sessions| && k in w.honest && ConnSigned(w.sessions[j], k, phase.transcript);
    var expected := TranscriptSigned(phase.hello, phase.own, phase.transcript[79..79 + n]);
    MessageOf(phase.hello, phase.own, phase.transcript[79..79 + n]);
    MessageInjective(w.sessions[j].signed.value, expected);
    assert SessionOk(w.sessions[j], w.table, sha);
    TranscriptSigner(w.sessions[j], w.table, sha);
    ModesAgree(s.Sign().insecure, w.sessions[j].Sign().insecure, n);
    assert IsPartner(w, i, j);
  }

  lemma MessageOf(server: ServerHello, client: ClientHello, signature: bytes)
    ensures TranscriptSigned(server, client, signature).Message()
         == Transcript(ServerHelloWire(server), ClientHelloWire(client, signature))
  {
  }

  lemma ModesAgree(x: bool, y: bool, n: nat)
    requires n == ConnSignatureLen(x) == ConnSignatureLen(y)
    ensures x == y
  {
  }

  lemma ClientFacts(s: Session, table: Table, sha: Hash)
    requires SessionOk(s, table, sha) && ClientEstablished(s)
    ensures var phase := s.side.clientPhase;
            && s.Sign().PeerVerifier(phase.bundle).Endorsed(table, phase.signature, phase.transcript)
            && s.endpoint.Some? && s.endpoint.value.transport.verifier.publicKey == phase.hello.packetKey
            && s.packetKey == Some(phase.own.packetKey)
            && sha(phase.bundle) == phase.hello.connDigest && s.side.client.accept(phase.hello, phase.bundle)
            && phase.own.connDigest == sha(s.Sign().PublicKeyBytes())
            && s.signed == Some(HelloSigned(phase.hello.unique, phase.own))
  {
    hide ConnVerify.Endorsed, WriteSide, IsHelloWire, ServerHelloWire;
  }

  /** Only an established server session has signed a transcript. */
  lemma TranscriptSigner(s: Session, table: Table, sha: Hash)
    requires SessionOk(s, table, sha) && s.signed.Some? && s.signed.value.TranscriptSigned?
    ensures ServerEstablished(s) && s.endpoint.Some?
    ensures s.side.hello == s.signed.value.server && s.side.serverPhase.client == s.signed.value.client
    ensures |s.signed.value.clientSignature| == ConnSignatureLen(s.Sign().insecure)
    ensures s.packetKey == Some(s.side.hello.packetKey)
    ensures s.side.hello.connDigest == sha(s.Sign().PublicKeyBytes())
    ensures s.endpoint.value.transport.verifier.publicKey == s.side.serverPhase.client.packetKey
  {
    hide ConnVerify.Endorsed, WriteSide, ServerHelloWire, ClientHelloWire;
  }

  /** A reader and the holder of its peer's packet key. */
  lemma ReaderIsLinked(w: World, i: nat, j: nat)
    requires StreamsOk(w) && i < |w.sessions| && j < |w.sessions|
    requires w.sessions[i].endpoint.Some?
    requires w.sessions[j].packetKey == Some(w.sessions[i].endpoint.value.transport.verifier.publicKey)
    ensures w.sessions[i].endpoint.value.delivered <= Flatten(w.sessions[j].Wrote())
  {
    hide Session.Wrote, Flatten;
    assert StreamOk(w.sessions[i], w.sessions[j]);
    var e, wrote := w.sessions[i].endpoint.value, w.sessions[j].Wrote();
    FlattenPrefix(wrote, e.transport.verifier.counter);
    assert e.delivered <= e.delivered + e.transport.Unread();
  }

  /** A client session has at most one partner, trusted or not. */
  lemma PartnerIsUnique(w: World, sha: Hash, events: seq<Event>, i: nat, j: nat, k: nat)
    requires Reachable(w, sha, events) && i < |w.sessions| && ClientEstablished(w.sessions[i])
    requires IsPartner(w, i, j) && IsPartner(w, i, k)
    ensures j == k
  {
    ReachableIsOk(w, sha, events);
    hide SessionOk, StreamOk, ComponentsApart, Unforged, Reachable, Signed.Message;
    assert SessionOk(w.sessions[j], w.table, sha) && SessionOk(w.sessions[k], w.table, sha);
    TranscriptSigner(w.sessions[j], w.table, sha);
    TranscriptSigner(w.sessions[k], w.table, sha);
    ApartAt(w, j, k);
  }

  /** What partners have in common: each reads a prefix of what the other wrote, and each
      has the digest of the other's key. */
  lemma PartnersAgree(w: World, sha: Hash, events: seq<Event>, i: nat, j: nat)
    requires Reachable(w, sha, events) && i < |w.sessions| && ClientEstablished(w.sessions[i])
    requires IsPartner(w, i, j)
    ensures w.sessions[i].endpoint.Some? && w.sessions[j].endpoint.Some?
    ensures Linked(w.sessions[i], w.sessions[j]) && Linked(w.sessions[j], w.sessions[i])
    ensures sha(w.sessions[i].side.clientPhase.bundle) == sha(w.sessions[j].Sign().PublicKeyBytes())
    ensures w.sessions[j].side.serverPhase.client.connDigest == sha(w.sessions[i].Sign().PublicKeyBytes())
  {
    ReachableIsOk(w, sha, events);
    hide SessionOk, StreamOk, ComponentsApart, Unforged, Signed.Message, Session.Wrote, Flatten, Reachable, StreamsOk,
        KeysApart;
    assert SessionOk(w.sessions[i], w.table, sha) && SessionOk(w.sessions[j], w.table, sha);
    ClientFacts(w.sessions[i], w.table, sha);
    TranscriptSigner(w.sessions[j], w.table, sha);
    ReaderIsLinked(w, i, j);
    ReaderIsLinked(w, j, i);
  }

  /** A client that completed under a trusted key has a partner, and its application
      accepted the key. */
  lemma ClientHasPartner(w: World, sha: Hash, events: seq<Event>, i: nat)
    requires Reachable(w, sha, events) && i < |w.sessions| && ClientEstablished(w.sessions[i])
    requires Trusted(w.sessions[i].side.clientPhase.bundle, w.sessions[i].Sign().insecure, w.honest)
    ensures var s := w.sessions[i].side; s.client.accept(s.clientPhase.hello, s.clientPhase.bundle)
    ensures exists j: nat :: IsPartner(w, i, j)
  {
    ReachableIsOk(w, sha, events);
    ClientIsPaired(w, sha, i);
    assert SessionOk(w.sessions[i], w.table, sha) by { hide SessionOk; }
    hide *;
    ClientFacts(w.sessions[i], w.table, sha);
  }

  /** Main result for clients. In every reachable world, whatever the network did: for each
      client session that completed with a trusted server key there is exactly one server
      session that shares its transcript; the two agree on both challenges, both packet
      keys, both key digests and the mode; and each has so far read a prefix of what the
      other wrote, whether or not its reads met errors. The application accepted the key
      bundle, which, unless SHA-256 collides on the two, is that server's. */
  lemma ClientsAgree(w: World, sha: Hash, events: seq<Event>, i: nat)
    requires Reachable(w, sha, events) && i < |w.sessions| && ClientEstablished(w.sessions[i])
    requires Trusted(w.sessions[i].side.clientPhase.bundle, w.sessions[i].Sign().insecure, w.honest)
    ensures var s := w.sessions[i].side; s.client.accept(s.clientPhase.hello, s.clientPhase.bundle)
    ensures exists j: nat :: IsPartner(w, i, j)
    ensures forall j: nat, k: nat :: IsPartner(w, i, j) && IsPartner(w, i, k) ==> j == k
    ensures forall j: nat :: IsPartner(w, i, j) ==>
              && w.sessions[i].endpoint.Some? && w.sessions[j].endpoint.Some?
              && Linked(w.sessions[i], w.sessions[j]) && Linked(w.sessions[j], w.sessions[i])
              && sha(w.sessions[i].side.clientPhase.bundle) == sha(w.sessions[j].Sign().PublicKeyBytes())
              && w.sessions[j].side.serverPhase.client.connDigest == sha(w.sessions[i].Sign().PublicKeyBytes())
  {
    ClientHasPartner(w, sha, events, i);
    hide Reachable, Trusted, Linked, Paired;
    forall j: nat, k: nat | IsPartner(w, i, j) && IsPartner(w, i, k) ensures j == k {
      PartnerIsUnique(w, sha, events, i, j, k);
    }
    forall j: nat | IsPartner(w, i, j)
      ensures w.sessions[i].endpoint.Some? && w.sessions[j].endpoint.Some?
      ensures Linked(w.sessions[i], w.sessions[j]) && Linked(w.sessions[j], w.sessions[i])
      ensures sha(w.sessions[i].side.clientPhase.bundle) == sha(w.sessions[j].Sign().PublicKeyBytes())
      ensures w.sessions[j].side.serverPhase.client.connDigest == sha(w.sessions[i].Sign().PublicKeyBytes())
    {
      PartnersAgree(w, sha, events, i, j);
    }
  }

  // ------------------------------------------------------------------- the server's view

  /** A session signed, as a client, the hello that a server session accepted. That alone
      says nothing about the rest of the ServerHello or the mode: the signature covers the
      server's challenge and the hello, and nothing else. */
  predicate Authored(client: Session, server: Session)
    requires ServerEstablished(server)
  {
    client.signed == Some(HelloSigned(server.side.hello.unique, server.side.serverPhase.client))
  }

  /** Session `i` signed the hello that server session `j` accepted. */
  predicate IsAuthor(w: World, j: nat, i: nat)
    requires j < |w.sessions| && ServerEstablished(w.sessions[j])
  {
    i < |w.sessions| && Authored(w.sessions[i], w.sessions[j])
  }

  lemma HelloSigner(s: Session, table: Table, sha: Hash)
    requires SessionOk(s, table, sha) && s.signed.Some? && s.signed.value.HelloSigned?
    ensures s.side.ClientSide? && s.packetKey == Some(s.signed.value.hello.packetKey)
    ensures s.signed.value.hello.connDigest == sha(s.Sign().PublicKeyBytes())
  {
    hide ConnVerify.Endorsed, WriteSide, IsHelloWire, ServerHelloWire;
  }

  lemma ServerFacts(s: Session, table: Table, sha: Hash)
    requires SessionOk(s, table, sha) && ServerEstablished(s)
    ensures var phase := s.side.serverPhase;
            && s.Sign().PeerVerifier(phase.clientBundle).Endorsed(
                 table, phase.clientWire[1..1 + ConnSignatureLen(s.Sign().insecure)],
                     ClientHelloInput(s.side.hello.unique, phase.client))
            && s.endpoint.Some? && s.endpoint.value.transport.verifier.publicKey == phase.client.packetKey
            && phase.client.connDigest in s.side.server.authorized
            && phase.clientBundle == s.side.server.authorized[phase.client.connDigest]
  {
    hide ConnVerify.Endorsed, WriteSide, IsHelloWire, ClientHelloInput;
  }

  /** Main result for servers. For each server session that accepted a hello under a
      trusted client key there is exactly one session, a client's, that signed that hello
      for that challenge, and the server has so far read a prefix of what that client
      session wrote. With authorized keys held under their own digests, and unless SHA-256
      collides on the two, the authorized bundle is that client's. */
  lemma ServersAgree(w: World, sha: Hash, events: seq<Event>, j: nat)
    requires Reachable(w, sha, events) && j < |w.sessions| && ServerEstablished(w.sessions[j])
    requires Trusted(w.sessions[j].side.serverPhase.clientBundle, w.sessions[j].Sign().insecure, w.honest)
    ensures exists i: nat :: IsAuthor(w, j, i)
    ensures forall i: nat, k: nat :: IsAuthor(w, j, i) && IsAuthor(w, j, k) ==> i == k
    ensures forall i: nat :: IsAuthor(w, j, i) ==>
              && w.sessions[i].side.ClientSide?
              && w.sessions[i].packetKey == Some(w.sessions[j].side.serverPhase.client.packetKey)
              && w.sessions[j].side.serverPhase.client.connDigest == sha(w.sessions[i].Sign().PublicKeyBytes())
              && (AuthorizedKeys.OwnDigests(w.sessions[j].side.server.authorized, sha) ==>
                    sha(w.sessions[j].side.serverPhase.clientBundle) == sha(w.sessions[i].Sign().PublicKeyBytes()))
              && w.sessions[j].endpoint.Some?
              && w.sessions[j].endpoint.value.delivered <= Flatten(w.sessions[i].Wrote())
  {
    ReachableIsOk(w, sha, events);
    hide SessionOk, StreamOk, ConnVerify.Endorsed, ComponentsApart, Unforged, Signed.Message, Trusted, Session.Wrote,
        Flatten, Reachable, StreamsOk;
    var s := w.sessions[j];
    var phase := s.side.serverPhase;
    assert SessionOk(s, w.table, sha);
    ServerFacts(s, w.table, sha);
    var message := ClientHelloInput(s.side.hello.unique, phase.client);
    EndorsedWasSigned(w, s.Sign().PeerVerifier(phase.clientBundle),
                      phase.clientWire[1..1 + ConnSignatureLen(s.Sign().insecure)], message);
    var i, k :| 0 <= i < |w.sessions| && k in w.honest && ConnSigned(w.sessions[i], k, message);
    MessageOfHello(s.side.hello.unique, phase.client);
    MessageInjective(w.sessions[i].signed.value, HelloSigned(s.side.hello.unique, phase.client));
    assert IsAuthor(w, j, i);
    forall i: nat | IsAuthor(w, j, i)
      ensures w.sessions[i].side.ClientSide? && w.sessions[i].packetKey == Some(phase.client.packetKey)
      ensures phase.client.connDigest == sha(w.sessions[i].Sign().PublicKeyBytes())
      ensures AuthorizedKeys.OwnDigests(s.side.server.authorized, sha) ==>
                sha(phase.clientBundle) == phase.client.connDigest
      ensures s.endpoint.value.delivered <= Flatten(w.sessions[i].Wrote())
    {
      assert SessionOk(w.sessions[i], w.table, sha);
      HelloSigner(w.sessions[i], w.table, sha);
      ReaderIsLinked(w, j, i);
    }
    forall i: nat, k: nat | IsAuthor(w, j, i) && IsAuthor(w, j, k) ensures i == k
    {
      ApartAt(w, i, k);
    }
  }

  lemma MessageOfHello(unique: u64, hello: ClientHello)
    ensures HelloSigned(unique, hello).Message() == ClientHelloInput(unique, hello)
  {
  }

  // ----------------------------------------------- the server's view, once it is spoken to

  /** It has accepted a payload or a keepalive. */
  predicate WasSpokenTo(s: Session) { s.endpoint.Some? && s.endpoint.value.transport.verifier.counter > 0 }

  lemma WritersAreEstablished(s: Session, table: Table, sha: Hash)
    requires SessionOk(s, table, sha) && s.side.ClientSide? && s.Wrote() != []
    ensures ClientEstablished(s)
  {
    hide ConnVerify.Endorsed, WriteSide, IsHelloWire, ServerHelloWire;
  }

  lemma SpokenToMeansWritten(reader: Session, writer: Session)
    requires WasSpokenTo(reader) && StreamOk(reader, writer)
    requires writer.packetKey == Some(reader.endpoint.value.transport.verifier.publicKey)
    ensures writer.Wrote() != []
  {
    hide Session.Wrote, Flatten;
  }

  /** A client signs payloads only once ServerComplete has verified: the author of a hello
      has completed by the time the server has accepted a payload. */
  lemma AuthorIsEstablished(w: World, sha: Hash, events: seq<Event>, j: nat, i: nat)
    requires Reachable(w, sha, events) && j < |w.sessions| && ServerEstablished(w.sessions[j]) && IsAuthor(w, j, i)
    requires WasSpokenTo(w.sessions[j])
    ensures ClientEstablished(w.sessions[i])
  {
    ReachableIsOk(w, sha, events);
    hide SessionOk, StreamOk, ComponentsApart, Unforged, KeysApart, Reachable, Session.Wrote, WasSpokenTo,
      Signed.Message;
    var client, server := w.sessions[i], w.sessions[j];
    assert SessionOk(client, w.table, sha) && SessionOk(server, w.table, sha) && StreamOk(server, client);
    HelloSigner(client, w.table, sha);
    ServerFacts(server, w.table, sha);
    SpokenToMeansWritten(server, client);
    WritersAreEstablished(client, w.table, sha);
  }

  /** For a client that completed under a trusted server key, the server session whose
      challenge and whose accepted hello it signed is its partner, and no other is. */
  lemma AuthorIsPartner(w: World, sha: Hash, events: seq<Event>, j: nat, i: nat)
    requires Reachable(w, sha, events) && j < |w.sessions| && ServerEstablished(w.sessions[j])
    requires i < |w.sessions| && ClientEstablished(w.sessions[i])
    requires Trusted(w.sessions[i].side.clientPhase.bundle, w.sessions[i].Sign().insecure, w.honest)
    ensures IsAuthor(w, j, i) <==> IsPartner(w, i, j)
  {
    ReachableIsOk(w, sha, events);
    ClientIsPaired(w, sha, i);
    hide SessionOk, StreamOk, ComponentsApart, Unforged, KeysApart, Reachable, Session.Wrote, Signed.Message, Trusted;
    assert SessionOk(w.sessions[i], w.table, sha);
    ClientFacts(w.sessions[i], w.table, sha);
    var k: nat :| IsPartner(w, i, k);
    ApartAt(w, j, k);
  }

  /** Main result for servers, continued. From the first payload or keepalive that a server
      accepts on, the one session that signed the hello has completed; and if the server key
      that it completed under is trusted, the two are each other's only partner: they agree
      on both hellos, so on both challenges, packet keys and key digests, and on the mode,
      and each has so far read a prefix of what the other wrote. */
  lemma ServersAgreeOnceSpokenTo(w: World, sha: Hash, events: seq<Event>, j: nat)
    requires Reachable(w, sha, events) && j < |w.sessions| && ServerEstablished(w.sessions[j])
    requires Trusted(w.sessions[j].side.serverPhase.clientBundle, w.sessions[j].Sign().insecure, w.honest)
    requires WasSpokenTo(w.sessions[j])
    ensures exists i: nat :: IsAuthor(w, j, i)
    ensures forall i: nat, k: nat :: IsAuthor(w, j, i) && IsAuthor(w, j, k) ==> i == k
    ensures forall i: nat :: IsAuthor(w, j, i) ==> ClientEstablished(w.sessions[i])
    ensures forall i: nat :: IsAuthor(w, j, i) && TrustsItsServer(w, i) ==>
              && IsPartner(w, i, j) && (forall k: nat :: IsPartner(w, i, k) ==> k == j)
              && w.sessions[j].side.hello == w.sessions[i].side.clientPhase.hello
              && w.sessions[j].side.serverPhase.client == w.sessions[i].side.clientPhase.own
              && w.sessions[j].Sign().insecure == w.sessions[i].Sign().insecure
              && w.sessions[i].endpoint.Some? && w.sessions[j].endpoint.Some?
              && Linked(w.sessions[i], w.sessions[j]) && Linked(w.sessions[j], w.sessions[i])
              && w.sessions[j].side.serverPhase.client.connDigest == sha(w.sessions[i].Sign().PublicKeyBytes())
              && w.sessions[i].side.clientPhase.hello.connDigest == sha(w.sessions[j].Sign().PublicKeyBytes())
  {
    ServersAgree(w, sha, events, j);
    hide Reachable, Trusted, Linked, WasSpokenTo, Session.Wrote;
    forall i: nat | IsAuthor(w, j, i) ensures ClientEstablished(w.sessions[i]) {
      AuthorIsEstablished(w, sha, events, j, i);
    }
    forall i: nat | IsAuthor(w, j, i) && TrustsItsServer(w, i)
      ensures IsPartner(w, i, j) && (forall k: nat :: IsPartner(w, i, k) ==> k == j)
      ensures w.sessions[i].endpoint.Some? && w.sessions[j].endpoint.Some?
      ensures Linked(w.sessions[i], w.sessions[j]) && Linked(w.sessions[j], w.sessions[i])
      ensures w.sessions[j].side.serverPhase.client.connDigest == sha(w.sessions[i].Sign().PublicKeyBytes())
      ensures w.sessions[i].side.clientPhase.hello.connDigest == sha(w.sessions[j].Sign().PublicKeyBytes())
    {
      AuthorIsPartner(w, sha, events, j, i);
      PartnersAgree(w, sha, events, i, j);
      ServerDigest(w, sha, events, j);
      forall k: nat | IsPartner(w, i, k) ensures k == j {
        PartnerIsUnique(w, sha, events, i, j, k);
      }
    }
  }

  /** The client has completed, under a trusted server key. */
  predicate TrustsItsServer(w: World, i: nat) {
    && i < |w.sessions| && ClientEstablished(w.sessions[i])
    && Trusted(w.sessions[i].side.clientPhase.bundle, w.sessions[i].Sign().insecure, w.honest)
  }

  lemma ServerDigest(w: World, sha: Hash, events: seq<Event>, j: nat)
    requires Reachable(w, sha, events) && j < |w.sessions| && ServerEstablished(w.sessions[j])
    ensures w.sessions[j].side.hello.connDigest == sha(w.sessions[j].Sign().PublicKeyBytes())
  {
    ReachableIsOk(w, sha, events);
    hide StreamOk, ComponentsApart, Unforged, KeysApart, Reachable, ConnVerify.Endorsed, WriteSide, IsHelloWire;
    assert SessionOk(w.sessions[j], w.table, sha);
  }

  // -------------------------------------------------------------- no reuse of signatures

  /** No hello that a session signed is accepted by two server sessions. */
  lemma NoHelloServesTwice(w: World, sha: Hash, events: seq<Event>, i: nat, j: nat, k: nat)
    requires Reachable(w, sha, events) && j < |w.sessions| && k < |w.sessions|
    requires ServerEstablished(w.sessions[j]) && ServerEstablished(w.sessions[k])
    requires IsAuthor(w, j, i) && IsAuthor(w, k, i)
    ensures j == k
  {
    ReachableIsOk(w, sha, events);
    hide SessionOk, StreamOk, ComponentsApart, Unforged;
    ApartAt(w, j, k);
  }

  /** Even if one ConnSign key plays both roles: what a session signs in one role never
      passes for what the other role signs. */
  lemma RolesNeverMix(w: World, sha: Hash, events: seq<Event>, i: nat, unique: u64, own: ClientHello,
      server: ServerHello, client: ClientHello, signature: bytes)
    requires Reachable(w, sha, events) && i < |w.sessions| && w.sessions[i].signed.Some?
    ensures w.sessions[i].side.ServerSide? ==> w.sessions[i].signed.value.Message() != ClientHelloInput(unique, own)
    ensures w.sessions[i].side.ClientSide? ==>
              w.sessions[i].signed.value.Message() != Transcript(ServerHelloWire(server),
                  ClientHelloWire(client, signature))
  {
    ReachableIsOk(w, sha, events);
    var s := w.sessions[i];
    assert SessionOk(s, w.table, sha) by { hide SessionOk; }
    hide ConnVerify.Endorsed, WriteSide, IsHelloWire, ServerHelloWire, ClientHelloWire, ClientHelloInput, StreamOk,
        Unforged, Reachable;
    match s.signed.value
    case HelloSigned(u, h) => SignedInputsDisjoint(u, h, server, client, signature);
    case TranscriptSigned(sh, c, sig) => SignedInputsDisjoint(unique, own, sh, c, sig);
  }
}
