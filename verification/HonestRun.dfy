/** The world of sessions does let honest ends connect, by either path, and talk: runs in
    which they do. */
module HonestRun {
  import opened Agreement
  import opened Bytes
  import opened Completion
  import opened FaithfulStreams
  import opened FrameReader
  import opened FrameStreams
  import opened Handshake
  import opened PacketLaws
  import opened Packets
  import opened Signatures
  import opened Transport
  import opened TransportRuns
  import opened World
  import opened WorldSteps
  import opened Wrappers
  import Hdlc

  /** The packet keys are new, and signatures have the length of the mode. */
  ghost predicate Suits(st: Setting, honest: set<Key>)
    requires st.Answered()
  {
    var s, c := Key(Ed25519, st.serverAnswers.packetKey.value), Key(Ed25519, st.clientAnswers.packetKey.value);
    && s != c && {s, c} !! honest + Components(st.server.sign.key) + Components(st.client.sign.key)
    && SignsWell(st.clientAnswers, st.client.sign.insecure) && SignsWell(st.serverAnswers, st.server.sign.insecure)
  }

  // ------------------------------------------------------------------------- the worlds

  /** The sessions after so many frames. */
  function ServerSession(st: Setting, m: nat, sha: Hash): Session
    requires st.Answered()
  {
    var up := m >= st.Turns();
    Session(ServerSide(st.server, st.Hello(sha), ServerAt(st, m, sha)),
            if up then Some(TranscriptSigned(st.Hello(sha), st.Own(sha), st.ClientSignature(sha))) else None,
            st.serverAnswers.packetKey,
            if up then Some(Start(Fresh(st.clientAnswers.packetKey.value, st.serverAnswers.now))) else None)
  }

  function ClientSession(st: Setting, n: nat, sha: Hash): Session
    requires st.Answered()
  {
    Session(ClientSide(st.client, ClientAt(st, n, sha)),
            if n >= st.Turns() then Some(HelloSigned(st.serverAnswers.unique.value, st.Own(sha))) else None,
            if n >= st.Turns() then st.clientAnswers.packetKey else None,
            if n > st.Turns() then Some(Start(Fresh(st.serverAnswers.packetKey.value, st.clientAnswers.now))) else None)
  }

  ghost function HelloTriples(st: Setting, sha: Hash): Table
    requires st.Answered() && SignsWell(st.clientAnswers, st.client.sign.insecure)
  {
    Made(st.client.sign, st.ClientMessage(sha), st.clientAnswers)
  }

  ghost function CompleteTriples(st: Setting, sha: Hash): Table
    requires st.Answered() && SignsWell(st.serverAnswers, st.server.sign.insecure)
  {
    Made(st.server.sign, st.ServerMessage(sha), st.serverAnswers)
  }

  ghost function Accepts(st: Setting, n: nat, m: nat, sha: Hash, honest: set<Key>): Table
    requires st.Answered() && Suits(st, honest)
  {
    (if n >= st.Turns() then HelloTriples(st, sha) else {}) + (if m >= st.Turns() then CompleteTriples(st, sha) else {})
  }

  /** The world after `n` frames to the client and `m` to the server. */
  ghost function After(st: Setting, n: nat, m: nat, sha: Hash, honest: set<Key>): World
    requires st.Answered() && Suits(st, honest)
  {
    World([ServerSession(st, m, sha), ClientSession(st, n, sha)], Accepts(st, n, m, sha, honest), honest)
  }

  ghost predicate Goes(w: World, sha: Hash, ev: Event, next: World) {
    Enabled(w, ev) && Do(w, sha, ev) == next
  }

  lemma OneMore(w: World, sha: Hash, ev: Event, next: World, events: seq<Event>, end: World)
    requires Goes(w, sha, ev, next) && Runs(next, sha, events, end)
    ensures Runs(w, sha, [ev] + events, end)
  {
    hide Enabled, Do;
    assert ([ev] + events)[1..] == events;
  }

  lemma RunsNothing(w: World, sha: Hash)
    ensures Runs(w, sha, [], w)
  {
  }

  /** A frame that comes in, and what its session makes of it. */
  lemma FrameGoes(w: World, sha: Hash, i: nat, frame: bytes, a: Answers, session: Session, made: Table, next: World)
    requires i < |w.sessions| && w.sessions[i].Wants() && SignsWell(a, w.sessions[i].Sign().insecure)
    requires w.sessions[i].packetKey.None? && a.packetKey.Some? ==> FreshKey(w, a.packetKey.value)
    requires FrameMove(w.sessions[i], sha, frame, w.table, a) == Move(session, made)
    requires next == World(w.sessions[i := session], w.table + made, w.honest)
    ensures Goes(w, sha, FrameIn(i, frame, a), next)
  {
    hide FrameMove, FreshKey, SignsWell;
  }

  // -------------------------------------------------------------------------- the turns

  lemma ClientMoves(st: Setting, n: nat, sha: Hash, honest: set<Key>)
    requires st.Ready(sha) && st.Answered() && Suits(st, honest) && n <= st.Turns()
    requires n == st.Turns() ==> st.ServerMade(sha)
    ensures ClientSession(st, n, sha).Wants()
    ensures FrameMove(ClientSession(st, n, sha), sha, Hdlc.Encoded(st.ServerWire(n, sha)), st.table, st.clientAnswers)
         == Move(ClientSession(st, n + 1, sha), if n + 1 == st.Turns() then HelloTriples(st, sha) else {})
  {
    ClientTakes(st, n, sha);
    ClientPhases(st, n, sha);
    hide Setting.Ready, Setting.ServerMade, ClientStep, Hdlc.Encoded, Setting.ServerWire, Setting.ClientWire, ClientAt,
      Made, ClientHelloInput, Setting.Turns, SignsWell;
  }

  lemma ClientPhases(st: Setting, n: nat, sha: Hash)
    requires st.Answered()
    ensures var p := ClientAt(st, n, sha);
            && (p.WantComplete? <==> n == st.Turns()) && (p.ClientDone? <==> n > st.Turns())
            && (n <= st.Turns() ==> p.Wants())
            && (p.WantComplete? ==> p.own == st.Own(sha) && p.hello.unique == st.serverAnswers.unique.value)
            && (p.ClientDone? ==>
                  ClientTransport(p) == Fresh(st.serverAnswers.packetKey.value, st.clientAnswers.now))
    ensures st.Own(sha).packetKey == st.clientAnswers.packetKey.value
    ensures st.ClientMessage(sha) == ClientHelloInput(st.serverAnswers.unique.value, st.Own(sha))
    ensures st.Turns() > 0
  {
    hide ServerHelloWire, ClientHelloWire, ClientHelloInput, Setting.ServerSignature, Setting.ClientSignature;
  }

  lemma ServerMoves(st: Setting, m: nat, sha: Hash, honest: set<Key>)
    requires st.Ready(sha) && st.Answered() && Suits(st, honest) && m < st.Turns()
    requires m + 1 == st.Turns() ==> st.ClientMade(sha)
    ensures ServerSession(st, m, sha).Wants()
    ensures FrameMove(ServerSession(st, m, sha), sha, Hdlc.Encoded(st.ClientWire(m, sha)), st.table, st.serverAnswers)
         == Move(ServerSession(st, m + 1, sha), if m + 1 == st.Turns() then CompleteTriples(st, sha) else {})
  {
    ServerTakes(st, m, sha);
    SignatureLengths(st, sha);
    SignatureInside(st.Own(sha), st.ClientSignature(sha));
    hide Setting.Ready, Setting.ClientMade, ServerStep, Hdlc.Encoded, Setting.ServerWire, Setting.ClientWire,
      Made, ServerHelloWire, ClientHelloWire, Setting.Turns, SignsWell, Setting.ServerSignature,
      Setting.ClientSignature;
  }

  lemma SignatureInside(h: ClientHello, signature: bytes)
    ensures ClientHelloWire(h, signature)[1..1 + |signature|] == signature
  {
    hide EncodeClientHello;
  }

  lemma SignatureLengths(st: Setting, sha: Hash)
    requires st.Ready(sha) && st.Answered()
    ensures |st.ClientSignature(sha)| == ConnSignatureLen(st.server.sign.insecure)
  {
    hide Setting.ClientSignature, Setting.ServerSignature, Setting.ServerMessage, Setting.ClientMessage;
  }

  /** With the triples in the table, the signatures are made. */
  lemma MadeInTable(st: Setting, n: nat, m: nat, sha: Hash, honest: set<Key>)
    requires st.Ready(sha) && st.Answered() && Suits(st, honest) && st.table == Accepts(st, n, m, sha, honest)
    ensures n >= st.Turns() ==> st.ClientMade(sha)
    ensures m >= st.Turns() ==> st.ServerMade(sha)
  {
    hide ComponentTriples, Setting.ServerMessage, Setting.ClientMessage;
  }

  /** The setting of the world as it stands. */
  lemma StandsReady(st: Setting, n: nat, m: nat, sha: Hash, honest: set<Key>) returns (now: Setting)
    requires st.Ready(sha) && st.Answered() && Suits(st, honest)
    ensures now == st.(table := Accepts(st, n, m, sha, honest))
    ensures now.Answered() && now.Ready(sha) && Suits(now, honest) && now.Turns() == st.Turns()
    ensures n >= st.Turns() ==> now.ClientMade(sha)
    ensures m >= st.Turns() ==> now.ServerMade(sha)
  {
    now := st.(table := Accepts(st, n, m, sha, honest));
    SameAsOf(st, now, sha, honest);
    AcceptsTheSame(st, now, n, m, sha, honest);
    hide *;
    MadeInTable(now, n, m, sha, honest);
  }

  lemma SameAsOf(st: Setting, now: Setting, sha: Hash, honest: set<Key>)
    requires st.Ready(sha) && st.Answered() && Suits(st, honest) && now == st.(table := now.table)
    ensures now.Answered() && now.Ready(sha) && Suits(now, honest) && now.Turns() == st.Turns()
  {
    hide ServerHelloWire, ClientHelloWire, ClientHelloInput, SignsWell;
  }

  /** Nothing but acceptance depends on the table. */
  lemma AcceptsTheSame(st: Setting, now: Setting, n: nat, m: nat, sha: Hash, honest: set<Key>)
    requires st.Answered() && Suits(st, honest) && now == st.(table := now.table)
    ensures now.Answered() && Suits(now, honest)
    ensures Accepts(now, n, m, sha, honest) == Accepts(st, n, m, sha, honest)
  {
    hide ServerHelloWire, ClientHelloWire, ClientHelloInput, SignsWell, Made;
  }

  lemma SessionsTheSame(st: Setting, now: Setting, k: nat, sha: Hash)
    requires st.Answered() && now == st.(table := now.table)
    ensures now.Answered()
    ensures ServerSession(now, k, sha) == ServerSession(st, k, sha)
    ensures ClientSession(now, k, sha) == ClientSession(st, k, sha)
    ensures now.ServerWire(k, sha) == st.ServerWire(k, sha) && now.ClientWire(k, sha) == st.ClientWire(k, sha)
  {
    hide ServerHelloWire, ClientHelloWire, ClientHelloInput;
  }

  lemma TriplesTheSame(st: Setting, now: Setting, sha: Hash, honest: set<Key>)
    requires st.Answered() && Suits(st, honest) && now == st.(table := now.table)
    ensures now.Answered() && Suits(now, honest)
    ensures HelloTriples(now, sha) == HelloTriples(st, sha) && CompleteTriples(now, sha) == CompleteTriples(st, sha)
  {
    hide ServerHelloWire, ClientHelloWire, ClientHelloInput, SignsWell, Made;
  }

  lemma ClientKeyIsFresh(st: Setting, n: nat, m: nat, sha: Hash, honest: set<Key>)
    requires st.Answered() && Suits(st, honest) && n < st.Turns() && m < st.Turns()
    ensures FreshKey(After(st, n, m, sha, honest), st.clientAnswers.packetKey.value)
  {
    hide ServerHelloWire, ClientAt, ServerAt, SignsWell;
  }

  lemma AfterIs(st: Setting, n: nat, m: nat, sha: Hash, honest: set<Key>)
    requires st.Answered() && Suits(st, honest)
    ensures var w := After(st, n, m, sha, honest);
            && w.sessions == [ServerSession(st, m, sha), ClientSession(st, n, sha)]
            && w.table == Accepts(st, n, m, sha, honest) && w.honest == honest
    ensures ServerSession(st, m, sha).Sign() == st.server.sign && ClientSession(st, n, sha).Sign() == st.client.sign
    ensures n >= st.Turns() ==> ClientSession(st, n, sha).packetKey.Some?
    ensures ServerSession(st, m, sha).packetKey.Some?
    ensures SignsWell(st.clientAnswers, st.client.sign.insecure) && SignsWell(st.serverAnswers, st.server.sign.insecure)
  {
    hide ServerHelloWire, ClientAt, ServerAt, Accepts;
  }

  lemma Replaced(x: Session, y: Session, z: Session)
    ensures [x, y][0 := z] == [z, y] && [x, y][1 := z] == [x, z]
  {
  }

  lemma ClientTableGrows(st: Setting, n: nat, m: nat, sha: Hash, honest: set<Key>)
    requires st.Answered() && Suits(st, honest) && (n < st.Turns() ==> m < st.Turns())
    ensures Accepts(st, n + 1, m, sha, honest)
         == Accepts(st, n, m, sha, honest) + (if n + 1 == st.Turns() then HelloTriples(st, sha) else {})
    ensures m + 1 == st.Turns() <= n ==>
              Accepts(st, n, m + 1, sha, honest) == Accepts(st, n, m, sha, honest) + CompleteTriples(st, sha)
    ensures m + 1 < st.Turns() ==> Accepts(st, n, m + 1, sha, honest) == Accepts(st, n, m, sha, honest) + {}
  {
    hide HelloTriples, CompleteTriples, SignsWell;
  }

  /** The client takes the server's next frame. */
  lemma ClientGoes(st: Setting, n: nat, sha: Hash, honest: set<Key>)
    requires st.Ready(sha) && st.Answered() && Suits(st, honest) && n <= st.Turns()
    ensures Goes(After(st, n, n, sha, honest), sha, FrameIn(1, Hdlc.Encoded(st.ServerWire(n, sha)), st.clientAnswers),
                 After(st, n + 1, n, sha, honest))
  {
    hide *;
    var w, next := After(st, n, n, sha, honest), After(st, n + 1, n, sha, honest);
    AfterIs(st, n, n, sha, honest);
    AfterIs(st, n + 1, n, sha, honest);
    var now := StandsReady(st, n, n, sha, honest);
    ClientMoves(now, n, sha, honest);
    SessionsTheSame(st, now, n, sha);
    SessionsTheSame(st, now, n + 1, sha);
    TriplesTheSame(st, now, sha, honest);
    ClientTableGrows(st, n, n, sha, honest);
    if n < st.Turns() {
      ClientKeyIsFresh(st, n, n, sha, honest);
    }
    Replaced(ServerSession(st, n, sha), ClientSession(st, n, sha), ClientSession(st, n + 1, sha));
    FrameGoes(w, sha, 1, Hdlc.Encoded(st.ServerWire(n, sha)), st.clientAnswers, ClientSession(st, n + 1, sha),
              if n + 1 == st.Turns() then HelloTriples(st, sha) else {}, next);
  }

  /** The server takes the client's answer. */
  lemma ServerGoes(st: Setting, m: nat, sha: Hash, honest: set<Key>)
    requires st.Ready(sha) && st.Answered() && Suits(st, honest) && m < st.Turns()
    ensures Goes(After(st, m + 1, m, sha, honest), sha,
        FrameIn(0, Hdlc.Encoded(st.ClientWire(m, sha)), st.serverAnswers),
                 After(st, m + 1, m + 1, sha, honest))
  {
    hide *;
    var w, next := After(st, m + 1, m, sha, honest), After(st, m + 1, m + 1, sha, honest);
    AfterIs(st, m + 1, m, sha, honest);
    AfterIs(st, m + 1, m + 1, sha, honest);
    var now := StandsReady(st, m + 1, m, sha, honest);
    ServerMoves(now, m, sha, honest);
    SessionsTheSame(st, now, m, sha);
    SessionsTheSame(st, now, m + 1, sha);
    TriplesTheSame(st, now, sha, honest);
    ClientTableGrows(st, m + 1, m, sha, honest);
    Replaced(ServerSession(st, m, sha), ClientSession(st, m + 1, sha), ServerSession(st, m + 1, sha));
    FrameGoes(w, sha, 0, Hdlc.Encoded(st.ClientWire(m, sha)), st.serverAnswers, ServerSession(st, m + 1, sha),
              if m + 1 == st.Turns() then CompleteTriples(st, sha) else {}, next);
  }

  /** Turn by turn, from turn `k`: each frame that comes in is the one that the other end
      has just sent. */
  function Script(st: Setting, k: nat, sha: Hash): seq<Event>
    requires st.Answered()
    decreases st.Turns() - k
  {
    [FrameIn(1, Hdlc.Encoded(st.ServerWire(k, sha)), st.clientAnswers)] +
    if k >= st.Turns() then []
    else [FrameIn(0, Hdlc.Encoded(st.ClientWire(k, sha)), st.serverAnswers)] + Script(st, k + 1, sha)
  }

  lemma {:induction false} ScriptRuns(st: Setting, k: nat, sha: Hash, honest: set<Key>)
    requires st.Ready(sha) && st.Answered() && Suits(st, honest) && k <= st.Turns()
    ensures Runs(After(st, k, k, sha, honest), sha, Script(st, k, sha),
        After(st, st.Turns() + 1, st.Turns(), sha, honest))
    decreases st.Turns() - k
  {
    hide Setting.Ready, Setting.Answered, Suits, After, Goes, Runs, Hdlc.Encoded, Setting.ServerWire,
        Setting.ClientWire,
      Setting.Turns;
    var end := After(st, st.Turns() + 1, st.Turns(), sha, honest);
    ClientGoes(st, k, sha, honest);
    if k == st.Turns() {
      RunsNothing(end, sha);
      OneMore(After(st, k, k, sha, honest), sha, FrameIn(1, Hdlc.Encoded(st.ServerWire(k, sha)), st.clientAnswers),
              end, [], end);
    } else {
      ServerGoes(st, k, sha, honest);
      ScriptRuns(st, k + 1, sha, honest);
      var answer := FrameIn(0, Hdlc.Encoded(st.ClientWire(k, sha)), st.serverAnswers);
      OneMore(After(st, k + 1, k, sha, honest), sha, answer, After(st, k + 1, k + 1, sha, honest),
              Script(st, k + 1, sha), end);
      OneMore(After(st, k, k, sha, honest), sha, FrameIn(1, Hdlc.Encoded(st.ServerWire(k, sha)), st.clientAnswers),
              After(st, k + 1, k, sha, honest), [answer] + Script(st, k + 1, sha), end);
    }
  }

  /** Both ends open. */
  lemma Opens(st: Setting, sha: Hash, honest: set<Key>) returns (middle: World)
    requires st.Ready(sha) && st.Answered() && Suits(st, honest)
    ensures Goes(World([], {}, honest), sha,
                 OpenServer(st.server, st.serverAnswers.unique.value, st.serverAnswers.packetKey.value), middle)
    ensures Goes(middle, sha, OpenClient(st.client), After(st, 0, 0, sha, honest))
  {
    hide ServerHelloWire, ClientHelloWire, SignsWell, Setting.Ready;
    middle := World([ServerSession(st, 0, sha)], {}, honest);
    assert [] + [ServerSession(st, 0, sha)] == [ServerSession(st, 0, sha)];
    assert [ServerSession(st, 0, sha)] + [ClientSession(st, 0, sha)] ==
        [ServerSession(st, 0, sha), ClientSession(st, 0, sha)];
  }

  /** The run that connects them. */
  function Connecting(st: Setting, sha: Hash): seq<Event>
    requires st.Answered()
  {
    [OpenServer(st.server, st.serverAnswers.unique.value, st.serverAnswers.packetKey.value)] +
    ([OpenClient(st.client)] + Script(st, 0, sha))
  }

  ghost function Connected(st: Setting, sha: Hash, honest: set<Key>): World
    requires st.Answered() && Suits(st, honest)
  {
    After(st, st.Turns() + 1, st.Turns(), sha, honest)
  }

  /** For any two ends that fit together, new packet keys, and either path, there is a run
      after which they are connected, each the other's partner. */
  lemma HonestEndsConnect(st: Setting, sha: Hash, honest: set<Key>)
    requires st.Ready(sha) && st.Answered() && Suits(st, honest)
    ensures var w := Connected(st, sha, honest);
            && Reachable(w, sha, Connecting(st, sha))
            && |w.sessions| == 2 && ClientEstablished(w.sessions[1]) && IsPartner(w, 1, 0)
  {
    var w := Connected(st, sha, honest);
    ConnectedPartners(st, sha, honest);
    hide Setting.Ready, Setting.Answered, Suits, Goes, Runs, IsPartner, ClientEstablished, Script;
    var middle := Opens(st, sha, honest);
    ScriptRuns(st, 0, sha, honest);
    OneMore(middle, sha, OpenClient(st.client), After(st, 0, 0, sha, honest), Script(st, 0, sha), w);
    OneMore(World([], {}, honest), sha,
            OpenServer(st.server, st.serverAnswers.unique.value, st.serverAnswers.packetKey.value), middle,
            [OpenClient(st.client)] + Script(st, 0, sha), w);
  }

  lemma ConnectedPartners(st: Setting, sha: Hash, honest: set<Key>)
    requires st.Ready(sha) && st.Answered() && Suits(st, honest)
    ensures var w := Connected(st, sha, honest);
            && |w.sessions| == 2 && w.honest == honest && ClientEstablished(w.sessions[1]) && IsPartner(w, 1, 0)
  {
    hide ServerHelloWire, ClientHelloWire, ClientHelloInput, SignsWell, Accepts;
  }

  // ---------------------------------------------------------------------- and they talk

  /** One payload that is written, sent, brought and read. */
  lemma WriteStep(t: Transport, data: bytes, signature: bytes)
    requires t.Valid() && t.Undrained() == [] && data != []
    ensures var e := TransportRuns.Step(Start(t), WriteOp(data, signature, []));
            && e.log == [Signing(t.signCounter, data, signature)] && e.transport == Queue(t, data, signature).(
                 writeBuffer := Hdlc.Encoded(PayloadWire(data, signature)), writeOffset := 0)
            && e.sent == [] && e.transport.Valid()
  {
    hide Hdlc.Encoded, PayloadWire;
    DrainsNothing(t, []);
    DrainConserves(t, []);
    assert [] + [Signing(t.signCounter, data, signature)] == [Signing(t.signCounter, data, signature)];
  }

  lemma FlushStep(e: Endpoint, frame: bytes)
    requires e.transport.Valid() && e.transport.writeBuffer == frame && e.transport.writeOffset == 0 && frame != []
    requires e.sent == []
    ensures var next := TransportRuns.Step(e, FlushOp([Wrote(|frame|), Wrote(1)]));
            next.sent == frame && next.log == e.log
  {
    var t, writes := e.transport, [Wrote(|frame|), Wrote(1)];
    DrainTakes(t, writes);
    var after := t.(writeOffset := |frame|);
    DrainsNothing(after, Tail(writes));
    hide Drain;
    assert t.Undrained() == frame && frame[..|frame|] == frame;
    assert [] + (frame + []) == frame;
  }

  /** A frame that is all there is yielded. */
  lemma WholeFrameIsYielded(f: bytes)
    requires IsFrame(f)
    ensures ReadFrame(IDLE, Arrivals(f)).outcome == Frame(f)
  {
    hide React, ReadFrame, IsFrame;
    var script := Arrivals(f);
    FrameIsRead(f);
    ReadFrameRuns(IDLE, script);
    assert Pending !in script;
    ReadFrameTail(IDLE, script);
    var step := ReadFrame(IDLE, script);
    var rest := Run(step.reader, step.rest);
    assert step.outcome == Suspended ==> rest.outcomes == [];
    assert step.outcome != Suspended ==> Run(IDLE, script).outcomes == [step.outcome] + rest.outcomes;
    assert ([step.outcome] + rest.outcomes)[0] == step.outcome;
  }

  lemma FrameFills(peer: Bytes32, now: nat, s: Signing, table: Table, clock: Clock)
    requires FitsFrame(s) && GenuineAt(s, 0, peer, table) && s.data != []
    requires Timely(Verifier(peer, 0, now), clock)
    ensures var step := Fill(Fresh(peer, now), Arrivals(WireOf(s)), table, clock);
            step.outcome == Filled && step.transport.Valid() && step.transport.Unread() == s.data
  {
    hide WireOf, GenuineAt, Timely, ReadFrame, Receive;
    var script, t := Arrivals(WireOf(s)), Fresh(peer, now);
    WireIsDelimited(s);
    WholeFrameIsYielded(WireOf(s));
    var step := ReadFrame(IDLE, script);
    ReadFrameKeepsValid(IDLE, script);
    InTime(t.verifier, clock, |step.rest|);
    GenuineReceive(t.(reader := step.reader), s, 0, table, clock(|step.rest|));
  }

  lemma ReadStepDelivers(peer: Bytes32, now: nat, s: Signing, room: nat, table: Table, clock: Clock)
    requires FitsFrame(s) && GenuineAt(s, 0, peer, table) && 0 < |s.data| <= room
    requires Timely(Verifier(peer, 0, now), clock)
    ensures var e := TransportRuns.Step(Start(Fresh(peer, now)), Arrive(Arrivals(WireOf(s))));
            TransportRuns.Step(e, ReadOp(room, table, clock)).delivered == s.data
  {
    FrameFills(peer, now, s, table, clock);
    hide WireOf, GenuineAt, Timely, Fill, TakeUnread;
    var script := Arrivals(WireOf(s));
    assert [] + script == script && [] + s.data == s.data;
    TakesEverything(Fill(Fresh(peer, now), script, table, clock).transport, room);
  }

  lemma TakesEverything(t: Transport, room: nat)
    requires t.Valid() && |t.Unread()| <= room
    ensures TakeUnread(t, room).0 == Read(t.Unread())
  {
  }

  lemma UseGoes(w: World, sha: Hash, i: nat, op: Op, next: World)
    requires i < |w.sessions| && w.sessions[i].endpoint.Some? && w.sessions[i].packetKey.Some?
    requires w.sessions[i].endpoint.value.transport.Valid()
    requires op.ReadOp? ==> op.table == w.table
    requires op.WriteOp? || op.KeepaliveOp? ==> |op.signature| == ED25519_SIGNATURE_LEN
    requires |w.sessions[i].endpoint.value.log| + 1 < 0x1_0000_0000_0000_0000
    requires var move := UseMove(w.sessions[i], op);
             next == World(w.sessions[i := move.session], w.table + move.made, w.honest)
    ensures Goes(w, sha, Use(i, op), next)
  {
    hide UseMove;
  }

  /** From any world of two established ends that have said nothing yet: what the one writes
      the other reads. */
  lemma OneTalks(w: World, sha: Hash, peer: Bytes32, now: nat, now': nat, other: Bytes32, data: bytes, signature: bytes,
      room: nat, clock: Clock) returns (events: seq<Event>, end: World)
    requires |w.sessions| == 2
    requires w.sessions[0].endpoint == Some(Start(Fresh(other, now'))) && w.sessions[0].packetKey == Some(peer)
    requires w.sessions[1].endpoint == Some(Start(Fresh(peer, now))) && w.sessions[1].packetKey.Some?
    requires 0 < |data| <= 32700 && |data| <= room && |signature| == ED25519_SIGNATURE_LEN
    requires Timely(Verifier(peer, 0, now), clock)
    ensures Runs(w, sha, events, end) && end.honest == w.honest && |end.sessions| == 2
    ensures end.sessions[0].endpoint.Some? && Payloads(end.sessions[0].endpoint.value.log) == [data]
    ensures end.sessions[1].endpoint.Some? && end.sessions[1].endpoint.value.delivered == data
    ensures forall k :: 0 <= k < 2 ==> end.sessions[k] == w.sessions[k].(endpoint := end.sessions[k].endpoint)
  {
    hide Enabled, Do, TransportRuns.Step, WireOf, Timely, GenuineAt, FitsFrame, Hdlc.Encoded, PayloadWire, Runs, Goes,
      PacketSignatureInput;
    var x, y, s := w.sessions[0], w.sessions[1], Signing(0, data, signature);
    var e0, r0 := Start(Fresh(other, now')), Start(Fresh(peer, now));
    WritesThatFit(s);
    WriteStep(Fresh(other, now'), data, signature);
    var e1 := TransportRuns.Step(e0, WriteOp(data, signature, []));
    assert e1.transport.writeBuffer == WireOf(s) by { WireIs(s); }
    WireIsDelimited(s);
    FlushStep(e1, WireOf(s));
    StepKeepsValid(e1, FlushOp([Wrote(|WireOf(s)|), Wrote(1)]));
    var e2 := TransportRuns.Step(e1, FlushOp([Wrote(|WireOf(s)|), Wrote(1)]));
    var triple := Triple(Key(Ed25519, peer), PacketSignatureInput(0, data), signature);
    var table := w.table + {triple};
    assert GenuineAt(s, 0, peer, table) by { MadeGenuine(s, peer, table); }
    ReadStepDelivers(peer, now, s, room, table, clock);
    var arrive := Arrive(Arrivals(WireOf(s)));
    StepKeepsValid(r0, arrive);
    var r1 := TransportRuns.Step(r0, arrive);
    var r2 := TransportRuns.Step(r1, ReadOp(room, table, clock));
    SilentOp(r0, arrive);
    SilentOp(r1, ReadOp(room, table, clock));
    var x1, x2 := x.(endpoint := Some(e1)), x.(endpoint := Some(e2));
    var y1, y2 := y.(endpoint := Some(r1)), y.(endpoint := Some(r2));
    assert w.sessions == [x, y];
    Replaced(x, y, x1);
    Replaced(x1, y, x2);
    Replaced(x2, y, y1);
    Replaced(x2, y1, y2);
    var w1, w2 := World([x1, y], table, w.honest), World([x2, y], table, w.honest);
    var w3 := World([x2, y1], table, w.honest);
    end := World([x2, y2], table, w.honest);
    assert table + {} == table;
    UseGoes(w, sha, 0, WriteOp(data, signature, []), w1);
    UseGoes(w1, sha, 0, FlushOp([Wrote(|WireOf(s)|), Wrote(1)]), w2);
    UseGoes(w2, sha, 1, arrive, w3);
    UseGoes(w3, sha, 1, ReadOp(room, table, clock), end);
    hide UseMove;
    RunsNothing(end, sha);
    OneMore(w3, sha, Use(1, ReadOp(room, table, clock)), end, [], end);
    OneMore(w2, sha, Use(1, arrive), w3, [Use(1, ReadOp(room, table, clock))] + [], end);
    OneMore(w1, sha, Use(0, FlushOp([Wrote(|WireOf(s)|), Wrote(1)])), w2,
            [Use(1, arrive)] + ([Use(1, ReadOp(room, table, clock))] + []), end);
    events := [Use(0, WriteOp(data, signature, []))] + ([Use(0, FlushOp([Wrote(|WireOf(s)|), Wrote(1)]))] +
              ([Use(1, arrive)] + ([Use(1, ReadOp(room, table, clock))] + [])));
    OneMore(w, sha, Use(0, WriteOp(data, signature, [])), w1,
            [Use(0, FlushOp([Wrote(|WireOf(s)|), Wrote(1)]))] +
            ([Use(1, arrive)] + ([Use(1, ReadOp(room, table, clock))] + [])), end);
  }

  lemma WireIs(s: Signing)
    ensures WireOf(s) == Hdlc.Encoded(PayloadWire(s.data, s.signature))
  {
  }

  lemma MadeGenuine(s: Signing, key: Bytes32, table: Table)
    requires s.counter == 0 && |s.signature| == ED25519_SIGNATURE_LEN
    requires Triple(Key(Ed25519, key), PacketSignatureInput(0, s.data), s.signature) in table
    ensures GenuineAt(s, 0, key, table)
  {
  }

  lemma SilentOp(e: Endpoint, op: Op)
    requires e.transport.Valid() && (op.Arrive? || op.ReadOp?)
    ensures TransportRuns.Step(e, op).log == e.log
  {
    hide ReadPayload;
  }

  /** A run in which two honest ends connect and a payload of the server's reaches the
      client's application. */
  lemma HonestEndsTalk(st: Setting, sha: Hash, honest: set<Key>, data: bytes, signature: bytes, room: nat, clock: Clock)
    returns (events: seq<Event>, end: World)
    requires st.Ready(sha) && st.Answered() && Suits(st, honest)
    requires 0 < |data| <= 32700 && |data| <= room && |signature| == ED25519_SIGNATURE_LEN
    requires Timely(Verifier(st.serverAnswers.packetKey.value, 0, st.clientAnswers.now), clock)
    ensures Reachable(end, sha, events) && |end.sessions| == 2
    ensures end.sessions[0].endpoint.Some? && Payloads(end.sessions[0].endpoint.value.log) == [data]
    ensures end.sessions[1].endpoint.Some? && end.sessions[1].endpoint.value.delivered == data
  {
    var w := Connected(st, sha, honest);
    HonestEndsConnect(st, sha, honest);
    ConnectedStreams(st, sha, honest);
    hide Setting.Ready, Suits, Connected, Runs, IsPartner, ClientEstablished, Connecting, Timely;
    var more;
    more, end := OneTalks(w, sha, st.serverAnswers.packetKey.value, st.clientAnswers.now, st.serverAnswers.now,
                          st.clientAnswers.packetKey.value, data, signature, room, clock);
    events := Connecting(st, sha) + more;
    RunsAppend(World([], {}, honest), sha, Connecting(st, sha), w, more, end);
  }

  lemma ConnectedStreams(st: Setting, sha: Hash, honest: set<Key>)
    requires st.Ready(sha) && st.Answered() && Suits(st, honest)
    ensures var w := Connected(st, sha, honest);
            && |w.sessions| == 2 && w.honest == honest
            && w.sessions[0].endpoint == Some(Start(Fresh(st.clientAnswers.packetKey.value, st.serverAnswers.now)))
            && w.sessions[0].packetKey == st.serverAnswers.packetKey
            && w.sessions[1].endpoint == Some(Start(Fresh(st.serverAnswers.packetKey.value, st.clientAnswers.now)))
            && w.sessions[1].packetKey == st.clientAnswers.packetKey
            && st.serverAnswers.packetKey.Some? && st.clientAnswers.packetKey.Some?
  {
    hide ServerAt, ClientAt, SignsWell, Accepts, Setting.Ready;
  }
}
