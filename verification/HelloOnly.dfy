/** What a server cannot know before it is spoken to, and what it cannot know at all if its
    client accepted a key that others use: runs in which the two ends disagree. */
module HelloOnly {
  import opened Agreement
  import opened Bytes
  import opened Completion
  import opened FaithfulStreams
  import opened Handshake
  import opened HonestRun
  import opened PacketLaws
  import opened Packets
  import opened Signatures
  import opened Transport
  import opened TransportRuns
  import opened World
  import opened WorldSteps
  import opened Wrappers
  import Hdlc

  /** One connection as either end sees it, on a network that alters the ServerHello on its
      way and the signature around the client's hello: `seen` is how the server sees it and
      `meant` how the client does. */
  ghost predicate Altered(meant: Setting, seen: Setting, sha: Hash, honest: set<Key>) {
    && meant.Ready(sha) && seen.Ready(sha) && !meant.ask && !seen.ask && meant.Answered() && seen.Answered()
    && Suits(meant, honest) && Suits(seen, honest)
    && meant.client.sign.key == seen.client.sign.key && meant.Own(sha) == seen.Own(sha)
    && meant.serverAnswers.unique == seen.serverAnswers.unique
    && meant.table == {} && seen.table == HelloTriples(meant, sha) && seen.ClientMade(sha)
  }

  /** After `n` frames to the client and `m` to the server. */
  ghost function Between(meant: Setting, seen: Setting, n: nat, m: nat, sha: Hash, honest: set<Key>): World
    requires Altered(meant, seen, sha, honest)
  {
    World([ClientSession(meant, n, sha), ServerSession(seen, m, sha)],
          (if n > 0 then HelloTriples(meant, sha) else {}) + (if m > 0 then CompleteTriples(seen, sha) else {}), honest)
  }

  /** The client gets the ServerHello altered, and the server the client's answer to it. */
  function Altering(meant: Setting, seen: Setting, sha: Hash): seq<Event>
    requires meant.Answered() && seen.Answered()
  {
    [OpenClient(meant.client)] +
    ([OpenServer(seen.server, seen.serverAnswers.unique.value, seen.serverAnswers.packetKey.value)] +
     ([FrameIn(0, Hdlc.Encoded(meant.ServerWire(0, sha)), meant.clientAnswers)] +
      ([FrameIn(1, Hdlc.Encoded(seen.ClientWire(0, sha)), seen.serverAnswers)] + [])))
  }

  lemma BothOpen(meant: Setting, seen: Setting, sha: Hash, honest: set<Key>) returns (middle: World)
    requires Altered(meant, seen, sha, honest)
    ensures Goes(World([], {}, honest), sha, OpenClient(meant.client), middle)
    ensures Goes(middle, sha,
                 OpenServer(seen.server, seen.serverAnswers.unique.value, seen.serverAnswers.packetKey.value),
                 Between(meant, seen, 0, 0, sha, honest))
  {
    hide ServerHelloWire, ClientHelloWire, SignsWell, Setting.Ready, HelloTriples, CompleteTriples, Setting.ClientMade;
    middle := World([ClientSession(meant, 0, sha)], {}, honest);
    assert [] + [ClientSession(meant, 0, sha)] == [ClientSession(meant, 0, sha)];
    assert [ClientSession(meant, 0, sha)] + [ServerSession(seen, 0, sha)] ==
        [ClientSession(meant, 0, sha), ServerSession(seen, 0, sha)];
  }

  lemma AlteredIs(meant: Setting, seen: Setting, sha: Hash, honest: set<Key>)
    requires Altered(meant, seen, sha, honest)
    ensures meant.Ready(sha) && seen.Ready(sha) && meant.Turns() == seen.Turns() == 1
    ensures meant.Answered() && seen.Answered() && Suits(meant, honest) && Suits(seen, honest) && seen.ClientMade(sha)
    ensures SignsWell(meant.clientAnswers, meant.client.sign.insecure)
    ensures SignsWell(seen.serverAnswers, seen.server.sign.insecure)
    ensures meant.table == {} && seen.table == HelloTriples(meant, sha)
  {
    hide Setting.Ready, HelloTriples, Setting.ClientMade, SignsWell;
  }

  lemma BetweenIs(meant: Setting, seen: Setting, n: nat, m: nat, sha: Hash, honest: set<Key>)
    requires Altered(meant, seen, sha, honest)
    ensures var w := Between(meant, seen, n, m, sha, honest);
            && w.sessions == [ClientSession(meant, n, sha), ServerSession(seen, m, sha)] && w.honest == honest
            && w.table == (if n > 0 then HelloTriples(meant, sha) else {}) +
                 (if m > 0 then CompleteTriples(seen, sha) else {})
    ensures ServerSession(seen, m, sha).Sign() == seen.server.sign && ServerSession(seen, m, sha).packetKey.Some?
    ensures ClientSession(meant, n, sha).Sign() == meant.client.sign
  {
    hide ServerHelloWire, ClientAt, ServerAt, Setting.Ready, HelloTriples, CompleteTriples, Setting.ClientMade,
      SignsWell;
  }

  lemma ClientKeyIsNew(meant: Setting, seen: Setting, sha: Hash, honest: set<Key>)
    requires Altered(meant, seen, sha, honest)
    ensures FreshKey(Between(meant, seen, 0, 0, sha, honest), meant.clientAnswers.packetKey.value)
  {
    hide ServerHelloWire, ClientAt, ServerAt, Setting.Ready, HelloTriples, CompleteTriples, Setting.ClientMade,
      SignsWell;
  }

  lemma ClientAnswers(meant: Setting, seen: Setting, sha: Hash, honest: set<Key>)
    requires Altered(meant, seen, sha, honest)
    ensures meant.Answered()
    ensures Goes(Between(meant, seen, 0, 0, sha, honest), sha,
                 FrameIn(0, Hdlc.Encoded(meant.ServerWire(0, sha)), meant.clientAnswers),
                 Between(meant, seen, 1, 0, sha, honest))
  {
    hide *;
    AlteredIs(meant, seen, sha, honest);
    BetweenIs(meant, seen, 0, 0, sha, honest);
    BetweenIs(meant, seen, 1, 0, sha, honest);
    ClientKeyIsNew(meant, seen, sha, honest);
    ClientMoves(meant, 0, sha, honest);
    Replaced(ClientSession(meant, 0, sha), ServerSession(seen, 0, sha), ClientSession(meant, 1, sha));
    assert Between(meant, seen, 0, 0, sha, honest).table == meant.table;
    assert meant.table + HelloTriples(meant, sha) == Between(meant, seen, 1, 0, sha, honest).table;
    FrameGoes(Between(meant, seen, 0, 0, sha, honest), sha, 0, Hdlc.Encoded(meant.ServerWire(0, sha)),
              meant.clientAnswers, ClientSession(meant, 1, sha), HelloTriples(meant, sha),
              Between(meant, seen, 1, 0, sha, honest));
  }

  lemma ServerAccepts(meant: Setting, seen: Setting, sha: Hash, honest: set<Key>)
    requires Altered(meant, seen, sha, honest)
    ensures seen.Answered()
    ensures Goes(Between(meant, seen, 1, 0, sha, honest), sha,
                 FrameIn(1, Hdlc.Encoded(seen.ClientWire(0, sha)), seen.serverAnswers),
                 Between(meant, seen, 1, 1, sha, honest))
  {
    hide *;
    AlteredIs(meant, seen, sha, honest);
    BetweenIs(meant, seen, 1, 0, sha, honest);
    BetweenIs(meant, seen, 1, 1, sha, honest);
    ServerMoves(seen, 0, sha, honest);
    Replaced(ClientSession(meant, 1, sha), ServerSession(seen, 0, sha), ServerSession(seen, 1, sha));
    assert Between(meant, seen, 1, 0, sha, honest).table == seen.table;
    assert seen.table + CompleteTriples(seen, sha) == Between(meant, seen, 1, 1, sha, honest).table;
    FrameGoes(Between(meant, seen, 1, 0, sha, honest), sha, 1, Hdlc.Encoded(seen.ClientWire(0, sha)),
              seen.serverAnswers, ServerSession(seen, 1, sha), CompleteTriples(seen, sha),
              Between(meant, seen, 1, 1, sha, honest));
  }

  /** The server accepts, and has of the client just its hello. */
  lemma AlteredIsAccepted(meant: Setting, seen: Setting, sha: Hash, honest: set<Key>)
    requires Altered(meant, seen, sha, honest)
    ensures meant.Answered() && seen.Answered()
    ensures var w := Between(meant, seen, 1, 1, sha, honest);
            && Reachable(w, sha, Altering(meant, seen, sha)) && |w.sessions| == 2 && w.honest == honest
            && ServerEstablished(w.sessions[1]) && IsAuthor(w, 1, 0) && !WasSpokenTo(w.sessions[1])
            && w.sessions[0].side.ClientSide? && w.sessions[0].side.clientPhase.WantComplete?
            && w.sessions[0].side.clientPhase.hello == meant.Hello(sha) && w.sessions[1].side.hello == seen.Hello(sha)
            && w.sessions[0].Sign() == meant.client.sign && w.sessions[1].Sign() == seen.server.sign
            && w.sessions[1].side.serverPhase.clientBundle == seen.client.sign.PublicKeyBytes()
  {
    var w := Between(meant, seen, 1, 1, sha, honest);
    AcceptedAuthor(meant, seen, sha, honest);
    hide Altered, Between, Goes, Runs, IsAuthor, WasSpokenTo, Hdlc.Encoded, Setting.Answered, Setting.ServerWire,
      Setting.ClientWire, Setting.Hello, ServerEstablished;
    AlteredIs(meant, seen, sha, honest);
    var middle := BothOpen(meant, seen, sha, honest);
    ClientAnswers(meant, seen, sha, honest);
    ServerAccepts(meant, seen, sha, honest);
    var e1 := OpenServer(seen.server, seen.serverAnswers.unique.value, seen.serverAnswers.packetKey.value);
    var e2 := FrameIn(0, Hdlc.Encoded(meant.ServerWire(0, sha)), meant.clientAnswers);
    var e3 := FrameIn(1, Hdlc.Encoded(seen.ClientWire(0, sha)), seen.serverAnswers);
    RunsNothing(w, sha);
    OneMore(Between(meant, seen, 1, 0, sha, honest), sha, e3, w, [], w);
    OneMore(Between(meant, seen, 0, 0, sha, honest), sha, e2, Between(meant, seen, 1, 0, sha, honest), [e3] + [], w);
    OneMore(middle, sha, e1, Between(meant, seen, 0, 0, sha, honest), [e2] + ([e3] + []), w);
    OneMore(World([], {}, honest), sha, OpenClient(meant.client), middle, [e1] + ([e2] + ([e3] + [])), w);
  }

  lemma AcceptedAuthor(meant: Setting, seen: Setting, sha: Hash, honest: set<Key>)
    requires Altered(meant, seen, sha, honest)
    ensures var w := Between(meant, seen, 1, 1, sha, honest);
            && |w.sessions| == 2 && w.honest == honest
            && ServerEstablished(w.sessions[1]) && IsAuthor(w, 1, 0) && !WasSpokenTo(w.sessions[1])
            && w.sessions[0].side.ClientSide? && w.sessions[0].side.clientPhase.WantComplete?
            && w.sessions[0].side.clientPhase.hello == meant.Hello(sha) && w.sessions[1].side.hello == seen.Hello(sha)
            && w.sessions[0].Sign() == meant.client.sign && w.sessions[1].Sign() == seen.server.sign
            && w.sessions[1].side.serverPhase.clientBundle == seen.client.sign.PublicKeyBytes()
  {
    hide ServerHelloWire, ClientHelloWire, Setting.Ready, HelloTriples, CompleteTriples, Setting.ClientMade, SignsWell;
  }

  // ------------------------------------------------------------------ before it is spoken to

  /** Two keys, a mode, the packet keys `c` of the client and `p` of the server, and their
      challenges; signatures are zeros. */
  function View(ck: ConnKey, sk: ConnKey, insecure: bool, c: Bytes32, p: Bytes32, clientUnique: u64, serverUnique: u64,
      table: Table, sha: Hash): Setting
  {
    var clientBundle, serverBundle := EncodeConnPublicKey(ck), EncodeConnPublicKey(sk);
    var sign := _ => Some(Zeros(ConnSignatureLen(insecure)));
    Setting(ClientConfig(ConnSign(ck, insecure), _ => Ok(Some(serverBundle)), (_, _) => true),
            ServerConfig(ConnSign(sk, insecure), map[sha(clientBundle) := clientBundle]), false, table,
            Answers(Some(c), Some(clientUnique), sign, 0), Answers(Some(p), Some(serverUnique), sign, 0))
  }

  /** Keys of a length that fits, packet keys that are no one's ConnSign key. */
  predicate Distinct(ck: ConnKey, sk: ConnKey, c: Bytes32, p: Bytes32, honest: set<Key>) {
    && ck.mlDsa != [] && sk.mlDsa != [] && |EncodeConnPublicKey(sk)| <= 32764
    && c != p && {Key(Ed25519, c), Key(Ed25519, p)} !! honest + Components(ck) + Components(sk)
  }

  lemma ViewFits(ck: ConnKey, sk: ConnKey, insecure: bool, c: Bytes32, p: Bytes32, clientUnique: u64,
      serverUnique: u64, table: Table, sha: Hash, honest: set<Key>)
    requires Distinct(ck, sk, c, p, honest)
    ensures var st := View(ck, sk, insecure, c, p, clientUnique, serverUnique, table, sha);
            && st.Answered() && st.Ready(sha) && Suits(st, honest)
            && st.Hello(sha) == ServerHello(serverUnique, sha(EncodeConnPublicKey(sk)), p)
            && st.Own(sha) == ClientHello(clientUnique, sha(EncodeConnPublicKey(ck)), c)
            && st.ClientMessage(sha) == ClientHelloInput(serverUnique, st.Own(sha))
            && st.ClientSignature(sha) == st.ServerSignature(sha) == Zeros(ConnSignatureLen(insecure))
  {
    hide EncodeConnPublicKey, ClientHelloInput, ServerHelloWire, ClientHelloWire;
  }

  /** Zeros of the mode with both components hold zeros of the other mode. */
  lemma ZerosInZeros(key: ConnKey, message: bytes, x: bool, y: bool)
    requires x ==> y
    ensures ComponentTriples(key, y, message, Zeros(ConnSignatureLen(y)))
         <= ComponentTriples(key, x, message, Zeros(ConnSignatureLen(x)))
  {
    assert Zeros(ConnSignatureLen(false))[ML_DSA_44_SIGNATURE_LEN..] == Zeros(ConnSignatureLen(true));
  }

  lemma ViewsAreAltered(ck: ConnKey, sk: ConnKey, other: ConnKey, clientInsecure: bool, serverInsecure: bool,
      c: Bytes32, p: Bytes32, q: Bytes32, clientUnique: u64, serverUnique: u64, sha: Hash, honest: set<Key>)
    returns (meant: Setting, seen: Setting)
    requires Distinct(ck, sk, c, p, honest) && Distinct(ck, other, c, q, honest) && (clientInsecure ==> serverInsecure)
    ensures Altered(meant, seen, sha, honest)
    ensures meant == View(ck, other, clientInsecure, c, q, clientUnique, serverUnique, {}, sha)
    ensures seen == View(ck, sk, serverInsecure, c, p, clientUnique, serverUnique, seen.table, sha)
  {
    hide Setting.Ready, Suits, Distinct, ClientHelloInput, EncodeConnPublicKey, ComponentTriples,
      Setting.ClientSignature, Setting.ServerSignature, Setting.ClientMessage, Setting.Own, Setting.Hello,
      ServerHelloWire;
    meant := View(ck, other, clientInsecure, c, q, clientUnique, serverUnique, {}, sha);
    ViewFits(ck, other, clientInsecure, c, q, clientUnique, serverUnique, {}, sha, honest);
    SuitsSigns(meant, honest);
    var table := HelloTriples(meant, sha);
    seen := View(ck, sk, serverInsecure, c, p, clientUnique, serverUnique, table, sha);
    ViewFits(ck, sk, serverInsecure, c, p, clientUnique, serverUnique, table, sha, honest);
    ZerosInZeros(ck, meant.ClientMessage(sha), clientInsecure, serverInsecure);
  }

  lemma SuitsSigns(st: Setting, honest: set<Key>)
    requires st.Answered() && Suits(st, honest)
    ensures SignsWell(st.clientAnswers, st.client.sign.insecure) && SignsWell(st.serverAnswers, st.server.sign.insecure)
  {
  }

  /** The components of these keys are used by sessions only. */
  lemma OwnComponents(key: ConnKey, insecure: bool, honest: set<Key>)
    requires key.mlDsa != [] && Components(key) <= honest
    ensures Trusted(EncodeConnPublicKey(key), insecure, honest)
  {
    hide EncodeConnPublicKey, DecodeConnPublicKey;
    ConnPublicKeyRoundTrip(key, []);
    assert Key(Ed25519, key.ed25519) in Required(key, insecure);
  }

  /** The input for which a server that has accepted a hello, and has not been spoken to,
      has nothing but that hello: in any mode, or with a client in the stronger mode and the
      server in the weaker, the network exchanges the server's key and packet key for
      others. All the keys are honest. */
  lemma OnlyTheHelloIsAgreed(ck: ConnKey, sk: ConnKey, other: ConnKey, clientInsecure: bool, serverInsecure: bool,
      c: Bytes32, p: Bytes32, q: Bytes32, clientUnique: u64, serverUnique: u64, sha: Hash)
    returns (w: World, events: seq<Event>)
    requires var honest := Components(ck) + Components(sk) + Components(other);
             Distinct(ck, sk, c, p, honest) && Distinct(ck, other, c, q, honest)
    requires clientInsecure ==> serverInsecure
    ensures Reachable(w, sha, events) && |w.sessions| == 2
    ensures w.honest == Components(ck) + Components(sk) + Components(other)
    ensures ServerEstablished(w.sessions[1]) && IsAuthor(w, 1, 0) && !WasSpokenTo(w.sessions[1])
    ensures Trusted(w.sessions[1].side.serverPhase.clientBundle, serverInsecure, w.honest)
    ensures w.sessions[1].side.hello == ServerHello(serverUnique, sha(EncodeConnPublicKey(sk)), p)
    ensures w.sessions[0].side.ClientSide? && w.sessions[0].side.clientPhase.WantComplete?
    ensures w.sessions[0].side.clientPhase.hello == ServerHello(serverUnique, sha(EncodeConnPublicKey(other)), q)
    ensures w.sessions[0].Sign().insecure == clientInsecure && w.sessions[1].Sign().insecure == serverInsecure
  {
    hide *;
    var honest := Components(ck) + Components(sk) + Components(other);
    var meant, seen := ViewsAreAltered(ck, sk, other, clientInsecure, serverInsecure, c, p, q, clientUnique,
                                       serverUnique, sha, honest);
    ViewFits(ck, other, clientInsecure, c, q, clientUnique, serverUnique, {}, sha, honest);
    ViewFits(ck, sk, serverInsecure, c, p, clientUnique, serverUnique, seen.table, sha, honest);
    ViewIs(ck, other, clientInsecure, c, q, clientUnique, serverUnique, {}, sha);
    ViewIs(ck, sk, serverInsecure, c, p, clientUnique, serverUnique, seen.table, sha);
    AlteredIsAccepted(meant, seen, sha, honest);
    w, events := Between(meant, seen, 1, 1, sha, honest), Altering(meant, seen, sha);
    KeysAreLong(ck, sk, c, p, honest);
    OwnComponents(ck, serverInsecure, honest);
  }

  lemma KeysAreLong(ck: ConnKey, sk: ConnKey, c: Bytes32, p: Bytes32, honest: set<Key>)
    requires Distinct(ck, sk, c, p, honest)
    ensures ck.mlDsa != [] && sk.mlDsa != []
    ensures Components(ck) <= Components(ck) + Components(sk)
  {
  }

  lemma ViewIs(ck: ConnKey, sk: ConnKey, insecure: bool, c: Bytes32, p: Bytes32, clientUnique: u64, serverUnique: u64,
      table: Table, sha: Hash)
    ensures var st := View(ck, sk, insecure, c, p, clientUnique, serverUnique, table, sha);
            && st.client.sign == ConnSign(ck, insecure) && st.server.sign == ConnSign(sk, insecure)
            && st.client.sign.PublicKeyBytes() == EncodeConnPublicKey(ck)
            && st.server.sign.PublicKeyBytes() == EncodeConnPublicKey(sk)
            && st.clientAnswers.packetKey == Some(c) && st.serverAnswers.packetKey == Some(p)
            && st.clientAnswers.now == st.serverAnswers.now == 0 && !st.ask && st.table == table
  {
  }

  // ------------------------------------------------------- if the client trusts a foreign key

  lemma NoOnesKey(w: World, sha: Hash, x: Session, y: Session, t: Triple)
    requires w.sessions == [x, y] && t.key !in w.honest && !HoldsKey(x, t.key) && !HoldsKey(y, t.key)
    ensures Goes(w, sha, Forge(t), World(w.sessions, w.table + {t}, w.honest))
  {
  }

  /** The server key that the client accepted is not honest: its holder signs the client's
      transcript. */
  lemma ForeignKeySigns(meant: Setting, seen: Setting, sha: Hash, honest: set<Key>, t: Triple)
    requires Altered(meant, seen, sha, honest) && t.key !in honest
    requires t.key !in {Key(Ed25519, meant.clientAnswers.packetKey.value),
                        Key(Ed25519, seen.serverAnswers.packetKey.value)}
    ensures var w := Between(meant, seen, 1, 1, sha, honest);
            Goes(w, sha, Forge(t), World(w.sessions, w.table + {t}, honest))
  {
    hide *;
    SameClientKey(meant, seen, sha, honest);
    BetweenIs(meant, seen, 1, 1, sha, honest);
    KeysHeld(meant, seen, sha, t.key);
    var x, y := ClientSession(meant, 1, sha), ServerSession(seen, 1, sha);
    NoOnesKey(Between(meant, seen, 1, 1, sha, honest), sha, x, y, t);
  }

  lemma KeysHeld(meant: Setting, seen: Setting, sha: Hash, key: Key)
    requires meant.Answered() && seen.Answered() && meant.Turns() == 1
    ensures HoldsKey(ClientSession(meant, 1, sha), key) ==> key == Key(Ed25519, meant.clientAnswers.packetKey.value)
    ensures HoldsKey(ServerSession(seen, 1, sha), key) ==> key == Key(Ed25519, seen.serverAnswers.packetKey.value)
  {
  }

  lemma SameClientKey(meant: Setting, seen: Setting, sha: Hash, honest: set<Key>)
    requires Altered(meant, seen, sha, honest)
    ensures meant.Answered() && seen.Answered() && meant.Turns() == seen.Turns() == 1
  {
    hide Setting.Ready, Setting.ClientMade;
  }

  lemma ClientIsDone(meant: Setting, seen: Setting, table: Table, sha: Hash, honest: set<Key>)
    requires Altered(meant, seen, sha, honest) && meant.(table := table).Answered()
    requires meant.(table := table).ServerMade(sha)
    ensures meant.Answered()
    ensures Goes(World([ClientSession(meant, 1, sha), ServerSession(seen, 1, sha)], table, honest), sha,
                 FrameIn(0, Hdlc.Encoded(meant.ServerWire(1, sha)), meant.clientAnswers),
                 World([ClientSession(meant, 2, sha), ServerSession(seen, 1, sha)], table, honest))
  {
    hide *;
    AlteredIs(meant, seen, sha, honest);
    var now := meant.(table := table);
    SameAsOf(meant, now, sha, honest);
    SessionsTheSame(meant, now, 1, sha);
    SessionsTheSame(meant, now, 2, sha);
    ClientMoves(now, 1, sha, honest);
    BetweenIs(meant, seen, 1, 1, sha, honest);
    ClientHasKey(meant, sha);
    Replaced(ClientSession(meant, 1, sha), ServerSession(seen, 1, sha), ClientSession(meant, 2, sha));
    assert table + {} == table;
    FrameGoes(World([ClientSession(meant, 1, sha), ServerSession(seen, 1, sha)], table, honest), sha, 0,
              Hdlc.Encoded(meant.ServerWire(1, sha)), meant.clientAnswers, ClientSession(meant, 2, sha), {},
              World([ClientSession(meant, 2, sha), ServerSession(seen, 1, sha)], table, honest));
  }

  lemma ClientHasKey(st: Setting, sha: Hash)
    requires st.Answered() && st.Turns() == 1
    ensures ClientSession(st, 1, sha).packetKey.Some?
  {
  }

  /** Where both ends stand then. */
  lemma BothAreUp(meant: Setting, seen: Setting, sha: Hash, honest: set<Key>)
    requires Altered(meant, seen, sha, honest)
    ensures meant.Answered() && seen.Answered()
    ensures var x, y := ClientSession(meant, 2, sha), ServerSession(seen, 1, sha);
            && ClientEstablished(x) && ServerEstablished(y) && Authored(x, y)
            && x.side.clientPhase.hello == meant.Hello(sha) && y.side.hello == seen.Hello(sha)
            && y.side.serverPhase.clientBundle == seen.client.sign.PublicKeyBytes()
            && y.Sign() == seen.server.sign
            && x.endpoint == Some(Start(Fresh(meant.serverAnswers.packetKey.value, meant.clientAnswers.now)))
            && y.endpoint == Some(Start(Fresh(seen.clientAnswers.packetKey.value, seen.serverAnswers.now)))
            && x.packetKey == meant.clientAnswers.packetKey == seen.clientAnswers.packetKey
            && y.packetKey == seen.serverAnswers.packetKey
  {
    hide ServerHelloWire, ClientHelloWire, Setting.Ready, HelloTriples, Setting.ClientMade, SignsWell;
  }

  /** Delivered bytes were accepted. */
  lemma DeliveredMeansSpokenTo(w: World, sha: Hash, events: seq<Event>, j: nat, i: nat)
    requires Reachable(w, sha, events) && j < |w.sessions| && ServerEstablished(w.sessions[j]) && IsAuthor(w, j, i)
    requires w.sessions[j].endpoint.Some? && w.sessions[j].endpoint.value.delivered != []
    ensures WasSpokenTo(w.sessions[j])
  {
    ReachableIsOk(w, sha, events);
    hide SessionOk, KeysApart, ComponentsApart, Unforged, Session.Wrote, Signed.Message, Reachable;
    assert SessionOk(w.sessions[i], w.table, sha) && SessionOk(w.sessions[j], w.table, sha);
    HelloSigner(w.sessions[i], w.table, sha);
    ServerFacts(w.sessions[j], w.table, sha);
    assert StreamOk(w.sessions[j], w.sessions[i]);
  }

  lemma ForeignSignature(st: Setting, t: Triple, table: Table, sha: Hash)
    requires st.Answered() && st.server.sign.insecure && |st.ServerSignature(sha)| == ED25519_SIGNATURE_LEN
    requires t == Triple(Key(Ed25519, st.server.sign.key.ed25519), st.ServerMessage(sha), st.ServerSignature(sha))
    requires t in table
    ensures st.(table := table).Answered() && st.(table := table).ServerMade(sha)
  {
    hide ServerHelloWire, ClientHelloWire, ClientHelloInput;
  }

  /** Up to the completed client: a run, and the world it leads to. */
  lemma ForeignKeyCompletes(meant: Setting, seen: Setting, sha: Hash, honest: set<Key>)
    returns (w: World, events: seq<Event>)
    requires Altered(meant, seen, sha, honest) && meant.server.sign.insecure && meant.Answered()
    requires |meant.ServerSignature(sha)| == ED25519_SIGNATURE_LEN
    requires var key := Key(Ed25519, meant.server.sign.key.ed25519);
             key !in honest && key != Key(Ed25519, meant.clientAnswers.packetKey.value) &&
             seen.Answered() && key != Key(Ed25519, seen.serverAnswers.packetKey.value)
    ensures Reachable(w, sha, events) && w.honest == honest
    ensures w.sessions == [ClientSession(meant, 2, sha), ServerSession(seen, 1, sha)]
  {
    hide *;
    var t := Triple(Key(Ed25519, meant.server.sign.key.ed25519), meant.ServerMessage(sha), meant.ServerSignature(sha));
    var w0 := Between(meant, seen, 1, 1, sha, honest);
    AlteredIs(meant, seen, sha, honest);
    AlteredIsAccepted(meant, seen, sha, honest);
    BetweenIs(meant, seen, 1, 1, sha, honest);
    ForeignKeySigns(meant, seen, sha, honest, t);
    var table := w0.table + {t};
    ForeignSignature(meant, t, table, sha);
    ClientIsDone(meant, seen, table, sha, honest);
    var w1 := World(w0.sessions, table, honest);
    w := World([ClientSession(meant, 2, sha), ServerSession(seen, 1, sha)], table, honest);
    var last := FrameIn(0, Hdlc.Encoded(meant.ServerWire(1, sha)), meant.clientAnswers);
    RunsNothing(w, sha);
    OneMore(w1, sha, last, w, [], w);
    OneMore(w0, sha, Forge(t), w1, [last] + [], w);
    events := Altering(meant, seen, sha) + ([Forge(t)] + ([last] + []));
    ReachesFurther(w0, sha, Altering(meant, seen, sha), [Forge(t)] + ([last] + []), w);
  }

  lemma ReachesFurther(w: World, sha: Hash, events: seq<Event>, more: seq<Event>, end: World)
    requires Reachable(w, sha, events) && Runs(w, sha, more, end) && end.honest == w.honest
    ensures Reachable(end, sha, events + more)
  {
    hide Runs;
    RunsAppend(World([], {}, w.honest), sha, events, w, more, end);
  }

  lemma NotAComponent(ck: ConnKey, sk: ConnKey, c: Bytes32, p: Bytes32, honest: set<Key>)
    requires Distinct(ck, sk, c, p, honest)
    ensures Key(Ed25519, sk.ed25519) != Key(Ed25519, c) && c != p
    ensures |Zeros(ConnSignatureLen(true))| == |Zeros(ED25519_SIGNATURE_LEN)| == ED25519_SIGNATURE_LEN
    ensures |EncodeConnPublicKey(sk)| <= 32764
  {
  }

  /** A clock that stands still. */
  const STILL: Clock := _ => (0, 0)

  lemma AlwaysTimely(key: Bytes32)
    ensures Timely(Verifier(key, 0, 0), STILL)
  {
  }

  lemma SidesStay(w: World, end: World)
    requires |w.sessions| == |end.sessions| == 2
    requires forall k :: 0 <= k < 2 ==> end.sessions[k] == w.sessions[k].(endpoint := end.sessions[k].endpoint)
    requires ClientEstablished(w.sessions[0]) && ServerEstablished(w.sessions[1]) &&
             Authored(w.sessions[0], w.sessions[1])
    ensures ClientEstablished(end.sessions[0]) && ServerEstablished(end.sessions[1]) && IsAuthor(end, 1, 0)
    ensures end.sessions[0].side == w.sessions[0].side && end.sessions[1].side == w.sessions[1].side
    ensures end.sessions[1].Sign() == w.sessions[1].Sign()
  {
  }

  /** The input for which a server has been spoken to and still has nothing but the hello:
      its client accepted, and completed under, a server key that others can sign with. So
      in `ServersAgreeOnceSpokenTo` the client's trust cannot be dropped. */
  lemma ForeignKeyMisleads(ck: ConnKey, sk: ConnKey, other: ConnKey, c: Bytes32, p: Bytes32, q: Bytes32,
      clientUnique: u64, serverUnique: u64, sha: Hash)
    returns (w: World, events: seq<Event>)
    requires var honest := Components(ck) + Components(sk);
             && Distinct(ck, sk, c, p, honest) && Distinct(ck, other, c, q, honest)
             && Key(Ed25519, other.ed25519) !in honest && other.ed25519 != p
    ensures Reachable(w, sha, events) && |w.sessions| == 2 && w.honest == Components(ck) + Components(sk)
    ensures ServerEstablished(w.sessions[1]) && IsAuthor(w, 1, 0) && WasSpokenTo(w.sessions[1])
    ensures Trusted(w.sessions[1].side.serverPhase.clientBundle, w.sessions[1].Sign().insecure, w.honest)
    ensures w.sessions[1].side.hello == ServerHello(serverUnique, sha(EncodeConnPublicKey(sk)), p)
    ensures ClientEstablished(w.sessions[0])
    ensures w.sessions[0].side.clientPhase.hello == ServerHello(serverUnique, sha(EncodeConnPublicKey(other)), q)
  {
    hide *;
    var honest := Components(ck) + Components(sk);
    var meant, seen := ViewsAreAltered(ck, sk, other, true, true, c, p, q, clientUnique, serverUnique, sha, honest);
    ViewFits(ck, other, true, c, q, clientUnique, serverUnique, {}, sha, honest);
    ViewFits(ck, sk, true, c, p, clientUnique, serverUnique, seen.table, sha, honest);
    ViewIs(ck, other, true, c, q, clientUnique, serverUnique, {}, sha);
    ViewIs(ck, sk, true, c, p, clientUnique, serverUnique, seen.table, sha);
    KeysAreLong(ck, sk, c, p, honest);
    OwnComponents(ck, true, honest);
    NotAComponent(ck, other, c, q, honest);
    var middle, before := ForeignKeyCompletes(meant, seen, sha, honest);
    BothAreUp(meant, seen, sha, honest);
    AlwaysTimely(c);
    var more;
    more, w := OneTalks(middle, sha, c, 0, 0, q, [0], Zeros(ED25519_SIGNATURE_LEN), 1, STILL);
    events := before + more;
    ReachesFurther(middle, sha, before, more, w);
    SidesStay(middle, w);
    DeliveredMeansSpokenTo(w, sha, events, 1, 0);
  }
}
