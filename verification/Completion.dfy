/** On a channel that delivers what is sent, an authorised client and its server complete:
    by either path, from whatever part of each other's bytes has arrived so far, and taking
    exactly their own frames off the stream. */
module Completion {
  import opened Bytes
  import opened Wrappers
  import opened FaithfulStreams
  import opened FrameReader
  import opened FrameStreams
  import opened Handshake
  import opened HandshakeProgram
  import opened PacketLaws
  import opened Packets
  import opened Signatures
  import opened Transport
  import opened TransportRuns
  import Hdlc

  // -------------------------------------------------------------- reading and writing

  lemma {:induction false} AwaitsFrom(r: Reader, script: seq<ReadPoll>, f: bytes, tail: bytes)
    requires r.Valid() && NoEnd(script) && IsFrame(f)
    requires r.frame + Data(script) == f + tail && |r.frame| < |f|
    ensures var step := Await(r, script);
            step.outcome == Frame(f) && NoEnd(step.rest) && Data(step.rest) == tail
    decreases |script|
  {
    hide ReadFrame, Data;
    assert r.frame + Data(script) + [] == r.frame + Data(script);
    NextFrame(r, script, [], f, tail);
    var step := ReadFrame(r, script);
    assert step.reader.frame + Data(step.rest) + [] == step.reader.frame + Data(step.rest);
    assert Data(step.rest) + [] == Data(step.rest);
    if step.outcome == Suspended {
      MoreIsThere(r.frame, script, f, tail);
      ReadFrameShrinks(r, script);
      AwaitsFrom(step.reader, step.rest, f, tail);
    }
  }

  lemma MoreIsThere(taken: bytes, script: seq<ReadPoll>, f: bytes, tail: bytes)
    requires taken + Data(script) == f + tail && |taken| < |f|
    ensures script != []
  {
    assert |taken + Data(script)| == |taken| + |Data(script)|;
  }

  lemma ReadFrameShrinks(r: Reader, script: seq<ReadPoll>)
    requires script != []
    ensures |ReadFrame(r, script).rest| < |script|
  {
  }

  /** The next frame on a faithful channel, wherever Pending falls. */
  lemma AwaitsNext(script: seq<ReadPoll>, payload: bytes, tail: bytes)
    requires NoEnd(script) && Data(script) == Hdlc.Encoded(payload) + tail && |payload| <= 32765
    ensures var step := Await(IDLE, script);
            step.outcome == Frame(Hdlc.Encoded(payload)) && NoEnd(step.rest) && Data(step.rest) == tail
    ensures Hdlc.Decoded(Hdlc.Encoded(payload)) == Ok(payload)
  {
    hide Hdlc.Encoded, Hdlc.Decoded, Await, Data;
    EncodedIsDelimited(payload);
    Hdlc.RoundTripBounds(payload);
    Hdlc.RoundTripExactly(payload);
    assert [] + Data(script) == Data(script);
    AwaitsFrom(IDLE, script, Hdlc.Encoded(payload), tail);
  }

  function Progress(writes: seq<WritePoll>): nat {
    if writes == [] then 0 else (if writes[0].Wrote? then 1 else 0) + Progress(writes[1..])
  }

  /** A stream below that does not fail and takes at least `n` more bytes. */
  predicate Willing(writes: seq<WritePoll>, n: nat) {
    && (forall i :: 0 <= i < |writes| ==> writes[i].WritePending? || (writes[i].Wrote? && writes[i].n > 0))
    && Progress(writes) >= n
  }

  lemma {:induction false} SendsAll(data: bytes, writes: seq<WritePoll>, more: nat)
    requires Willing(writes, |data| + more)
    ensures var step := SendAll(data, writes);
            step.outcome == Drained && step.sent == data && Willing(step.rest, more)
    decreases |writes|
  {
    if data != [] {
      var poll := FirstWrite(writes, |data|);
      assert writes != [] ==> Willing(writes[1..], if writes[0].Wrote? then |data| - 1 + more else |data| + more);
      if poll.Wrote? {
        SendsAll(data[poll.n..], writes[1..], more);
        assert data == data[..poll.n] + data[poll.n..];
      } else {
        SendsAll(data, writes[1..], more);
      }
    }
  }

  lemma {:induction false} FlushesAll(writes: seq<WritePoll>, more: nat)
    requires Willing(writes, 1 + more)
    ensures var step := FlushAll(writes); step.outcome == Drained && Willing(step.rest, more)
    decreases |writes|
  {
    assert writes != [] ==> Willing(writes[1..], if writes[0].Wrote? then more else 1 + more);
    if writes[0].WritePending? {
      FlushesAll(writes[1..], more);
    }
  }

  /** One poll that makes progress for each byte, and one for the flush. */
  lemma SendsFrame(data: bytes, writes: seq<WritePoll>, more: nat)
    requires Willing(writes, |data| + 1 + more)
    ensures var step := SendFrame(data, writes);
            step.outcome == Drained && step.sent == data && Willing(step.rest, more)
  {
    hide SendAll, FlushAll, Willing;
    SendsAll(data, writes, 1 + more);
    FlushesAll(SendAll(data, writes).rest, more);
  }

  /** Of the next frame only a part has arrived, or nothing. */
  predicate IsPart(part: bytes, f: bytes) { part <= f && |part| < |f| }

  lemma {:induction false} AwaitsMore(r: Reader, script: seq<ReadPoll>, f: bytes)
    requires r.Valid() && NoEnd(script) && IsFrame(f) && IsPart(r.frame + Data(script), f)
    ensures Await(r, script).outcome == Suspended
    decreases |script|
  {
    hide ReadFrame, Data;
    var toCome := f[|r.frame + Data(script)|..];
    assert r.frame + Data(script) + toCome == f + [];
    NextFrame(r, script, toCome, f, []);
    var step := ReadFrame(r, script);
    assert |Data(step.rest) + toCome| >= |toCome| > 0;
    if script != [] {
      ReadFrameShrinks(r, script);
      StillPart(step.reader.frame + Data(step.rest), toCome, f);
      AwaitsMore(step.reader, step.rest, f);
    }
  }

  lemma AwaitsPart(payload: bytes, script: seq<ReadPoll>)
    requires NoEnd(script) && |payload| <= 32765 && IsPart(Data(script), Hdlc.Encoded(payload))
    ensures Await(IDLE, script).outcome == Suspended
  {
    hide Hdlc.Encoded, Await, Data, Hdlc.Decoded;
    EncodedIsDelimited(payload);
    Hdlc.RoundTripBounds(payload);
    Hdlc.RoundTripExactly(payload);
    assert [] + Data(script) == Data(script);
    AwaitsMore(IDLE, script, Hdlc.Encoded(payload));
  }

  lemma StillPart(x: bytes, toCome: bytes, f: bytes)
    requires x + toCome == f + [] && toCome != []
    ensures IsPart(x, f)
  {
    assert f + [] == f && f[..|x|] == x;
  }

  // ----------------------------------------------------------------------- the setting

  /** Everything that the two ends bring to one connection; `ask` if the client has to ask
      for the server's key bundle. */
  datatype Setting = Setting(
    client: ClientConfig, server: ServerConfig, ask: bool, table: Table,
    clientAnswers: Answers, serverAnswers: Answers)
  {
    ghost predicate Answered() {
      && clientAnswers.packetKey.Some? && clientAnswers.unique.Some?
      && serverAnswers.packetKey.Some? && serverAnswers.unique.Some?
    }

    /** The library accepts the same throughout. */
    function Always(): Tables { _ => table }

    function Hello(sha: Hash): ServerHello
      requires Answered()
    {
      ServerHelloOf(server, sha, serverAnswers.unique.value, serverAnswers.packetKey.value)
    }

    function Own(sha: Hash): ClientHello
      requires Answered()
    {
      ClientHello(clientAnswers.unique.value, sha(client.sign.PublicKeyBytes()), clientAnswers.packetKey.value)
    }

    function HelloWire(sha: Hash): bytes
      requires Answered()
    {
      ServerHelloWire(Hello(sha))
    }

    function ClientMessage(sha: Hash): bytes
      requires Answered()
    {
      ClientHelloInput(serverAnswers.unique.value, Own(sha))
    }

    function ClientSignature(sha: Hash): bytes
      requires Answered()
    {
      match clientAnswers.sign(ClientMessage(sha))
      case None => []
      case Some(signature) => signature
    }

    function OwnWire(sha: Hash): bytes
      requires Answered()
    {
      ClientHelloWire(Own(sha), ClientSignature(sha))
    }

    function ServerMessage(sha: Hash): bytes
      requires Answered()
    {
      Transcript(HelloWire(sha), OwnWire(sha))
    }

    function ServerSignature(sha: Hash): bytes
      requires Answered()
    {
      match serverAnswers.sign(ServerMessage(sha))
      case None => []
      case Some(signature) => signature
    }

    function PubkeyWire(): bytes { [SERVER_PUBKEY_TYPE] + server.sign.PublicKeyBytes() }

    function CompleteWire(sha: Hash): bytes
      requires Answered()
    {
      [SERVER_COMPLETE_TYPE] + ServerSignature(sha)
    }

    /** Same mode, the client authorised under its own digest, the server known or
        acceptable. */
    ghost predicate Ready(sha: Hash) {
      var serverBundle, clientBundle := server.sign.PublicKeyBytes(), client.sign.PublicKeyBytes();
      && Answered() && client.sign.insecure == server.sign.insecure
      && client.lookup(Hello(sha)) == Ok(if ask then None else Some(serverBundle))
      && client.accept(Hello(sha), serverBundle)
      && sha(clientBundle) in server.authorized && server.authorized[sha(clientBundle)] == clientBundle
      && |serverBundle| <= 32764
      && client.sign.key.mlDsa != [] && server.sign.key.mlDsa != []
      && clientAnswers.sign(ClientMessage(sha)).Some? && serverAnswers.sign(ServerMessage(sha)).Some?
      && |ClientSignature(sha)| == ConnSignatureLen(client.sign.insecure)
      && |ServerSignature(sha)| == ConnSignatureLen(server.sign.insecure)
    }

    ghost predicate ClientMade(sha: Hash)
      requires Answered()
    {
      Made(client.sign, ClientMessage(sha), ClientSignature(sha))
    }

    ghost predicate ServerMade(sha: Hash)
      requires Answered()
    {
      Made(server.sign, ServerMessage(sha), ServerSignature(sha))
    }

    /** ... and the library has made both signatures. */
    ghost predicate Agreed(sha: Hash) {
      Ready(sha) && ClientMade(sha) && ServerMade(sha)
    }

    ghost predicate Made(sign: ConnSign, message: bytes, signature: bytes) {
      && |signature| == ConnSignatureLen(sign.insecure)
      && ComponentTriples(sign.key, sign.insecure, message, signature) <= table
    }

    /** How many frames the client sends; the server sends one more. */
    function Turns(): nat { if ask then 2 else 1 }

    function ClientWire(m: nat, sha: Hash): bytes
      requires Answered()
    {
      if ask && m == 0 then [REQUEST_SERVER_PUBKEY_TYPE] else OwnWire(sha)
    }

    function ServerWire(n: nat, sha: Hash): bytes
      requires Answered()
    {
      if n == 0 then HelloWire(sha) else if ask && n == 1 then PubkeyWire() else CompleteWire(sha)
    }

    /** The frames from number `a` to before number `b`. */
    function ClientSends(a: nat, b: nat, sha: Hash): bytes
      requires Answered()
      decreases b - a
    {
      if a >= b then [] else Hdlc.Encoded(ClientWire(a, sha)) + ClientSends(a + 1, b, sha)
    }

    function ServerSends(a: nat, b: nat, sha: Hash): bytes
      requires Answered()
      decreases b - a
    {
      if a >= b then [] else Hdlc.Encoded(ServerWire(a, sha)) + ServerSends(a + 1, b, sha)
    }

    /** Polls that make progress, enough for all frames and their flushes. */
    function ClientNeeds(sha: Hash): nat
      requires Answered()
    {
      |ClientSends(0, Turns(), sha)| + Turns()
    }

    function ServerNeeds(sha: Hash): nat
      requires Answered()
    {
      |ServerSends(0, Turns() + 1, sha)| + Turns() + 1
    }
  }

  lemma MadeIsEndorsed(st: Setting, sign: ConnSign, message: bytes, signature: bytes)
    requires st.Made(sign, message, signature) && sign.key.mlDsa != []
    ensures ConnVerify(sign.PublicKeyBytes(), sign.insecure).Endorsed(st.table, signature, message)
  {
    hide EncodeConnPublicKey, DecodeConnPublicKey, ComponentTriples;
    ConnPublicKeyRoundTrip(sign.key, []);
  }

  lemma ReadyIsAnswered(st: Setting, sha: Hash)
    requires st.Ready(sha)
    ensures st.Answered()
  {
  }

  lemma AgreedIsReady(st: Setting, sha: Hash)
    requires st.Agreed(sha)
    ensures st.Ready(sha) && st.Answered() && st.ClientMade(sha) && st.ServerMade(sha)
  {
    hide Setting.Ready, Setting.ClientMade, Setting.ServerMade;
    ReadyIsAnswered(st, sha);
  }

  lemma WiresAreShort(st: Setting, sha: Hash)
    requires st.Ready(sha)
    ensures forall n: nat {:trigger st.ServerWire(n, sha)} :: |st.ServerWire(n, sha)| <= 32765
    ensures forall m: nat {:trigger st.ClientWire(m, sha)} :: |st.ClientWire(m, sha)| <= 32765
  {
    hide EncodeServerHello, EncodeClientHello, EncodeConnPublicKey;
  }

  // ------------------------------------------------------------------------ the client

  /** The client's ClientHello and the wait for an answer. */
  function Offer(st: Setting, sha: Hash): ClientReaction
    requires st.Answered()
  {
    ClientReaction(
      WantComplete(st.Hello(sha), st.HelloWire(sha), st.server.sign.PublicKeyBytes(), st.Own(sha), st.OwnWire(sha),
                   st.clientAnswers.now),
      Some(st.OwnWire(sha)))
  }

  function Completed(st: Setting, sha: Hash): ClientPhase
    requires st.Answered()
  {
    ClientDone(st.Hello(sha), st.Own(sha), st.ServerMessage(sha), st.server.sign.PublicKeyBytes(),
               st.ServerSignature(sha), st.clientAnswers.now)
  }

  lemma ClientTakesHello(st: Setting, sha: Hash)
    requires st.Ready(sha)
    ensures ClientStep(st.client, sha, WantHello, Hdlc.Encoded(st.HelloWire(sha)), st.table, st.clientAnswers)
         == if st.ask
            then ClientReaction(WantPubkey(st.Hello(sha), st.HelloWire(sha)), Some([REQUEST_SERVER_PUBKEY_TYPE]))
            else Offer(st, sha)
  {
    var wire, keys := st.HelloWire(sha), Keys(None, None, st.client.sign.insecure);
    Hdlc.RoundTripBounds(wire);
    hide Hdlc.Encoded, Hdlc.Decoded, Deserialize, ServerHelloWire, ClientHelloWire, ClientHelloInput,
      Setting.ServerMessage;
    UnsignedExactly(ServerHelloPacket(st.Hello(sha)), wire, keys, None, st.table, 0, 0);
  }

  lemma ClientTakesPubkey(st: Setting, sha: Hash)
    requires st.Ready(sha)
    ensures ClientStep(st.client, sha, WantPubkey(st.Hello(sha), st.HelloWire(sha)), Hdlc.Encoded(st.PubkeyWire()),
                       st.table, st.clientAnswers)
         == Offer(st, sha)
  {
    var wire, keys := st.PubkeyWire(), Keys(None, None, st.client.sign.insecure);
    Hdlc.RoundTripBounds(wire);
    hide Hdlc.Encoded, Hdlc.Decoded, Deserialize, ServerHelloWire, ClientHelloWire, ClientHelloInput,
      Setting.ServerMessage;
    UnsignedExactly(ServerPubkey(st.server.sign.PublicKeyBytes()), wire, keys, None, st.table, 0, 0);
  }

  lemma ClientTakesComplete(st: Setting, sha: Hash)
    requires st.Ready(sha) && st.ServerMade(sha)
    ensures ClientStep(st.client, sha, Offer(st, sha).phase, Hdlc.Encoded(st.CompleteWire(sha)), st.table,
        st.clientAnswers)
         == ClientReaction(Completed(st, sha), None)
  {
    var wire, signature, message := st.CompleteWire(sha), st.ServerSignature(sha), st.ServerMessage(sha);
    var keys, bundle := Keys(None, None, st.client.sign.insecure), st.server.sign.PublicKeyBytes();
    Hdlc.RoundTripBounds(wire);
    hide Hdlc.Encoded, Hdlc.Decoded, Deserialize, ServerHelloWire, ClientHelloWire, ClientHelloInput,
      ConnVerify.Endorsed, ConnVerify.VerifyDetached, Setting.Made, Setting.ServerSignature;
    UnsignedExactly(ServerComplete(signature), wire, keys, None, st.table, 0, 0);
    MadeIsEndorsed(st, st.server.sign, message, signature);
    VerificationFormsAgree(st.client.sign.PeerVerifier(bundle), st.table, signature, [], message);
    assert [] + message == message;
  }

  /** Where a client stands that has taken `n` frames. */
  function ClientAt(st: Setting, n: nat, sha: Hash): ClientPhase
    requires st.Answered()
  {
    if n == 0 then WantHello
    else if n > st.Turns() then Completed(st, sha)
    else if n == st.Turns() then Offer(st, sha).phase
    else WantPubkey(st.Hello(sha), st.HelloWire(sha))
  }

  lemma ClientTakes(st: Setting, n: nat, sha: Hash)
    requires st.Ready(sha) && (n == st.Turns() ==> st.ServerMade(sha)) && n <= st.Turns()
    ensures ClientAt(st, n, sha).Wants()
    ensures ClientStep(st.client, sha, ClientAt(st, n, sha), Hdlc.Encoded(st.ServerWire(n, sha)), st.table,
        st.clientAnswers)
         == ClientReaction(ClientAt(st, n + 1, sha), if n < st.Turns() then Some(st.ClientWire(n, sha)) else None)
  {
    ClientTakesHello(st, sha);
    ClientTakesPubkey(st, sha);
    if n == st.Turns() {
      ClientTakesComplete(st, sha);
    }
    hide Setting.Ready, Setting.ServerMade, Setting.ClientMade, ClientStep, Hdlc.Encoded, Setting.HelloWire,
      Setting.OwnWire, Setting.PubkeyWire, Setting.CompleteWire, Completed;
  }

  /** One frame answered: the client is left with what follows it. */
  lemma ClientTurn(st: Setting, sha: Hash, n: nat, incoming: seq<ReadPoll>, writes: seq<WritePoll>, tail: bytes,
      more: nat) returns (rest: seq<ReadPoll>, left: seq<WritePoll>)
    requires st.Ready(sha) && n < st.Turns() && NoEnd(incoming)
    requires Data(incoming) == Hdlc.Encoded(st.ServerWire(n, sha)) + tail
    requires Willing(writes, |Hdlc.Encoded(st.ClientWire(n, sha))| + 1 + more)
    ensures NoEnd(rest) && Data(rest) == tail && Willing(left, more)
    ensures var next := RunClient(st.client, sha, ClientAt(st, n + 1, sha), rest, left, st.Always(), st.clientAnswers);
            RunClient(st.client, sha, ClientAt(st, n, sha), incoming, writes, st.Always(), st.clientAnswers)
            == next.(sent := Hdlc.Encoded(st.ClientWire(n, sha)) + next.sent)
  {
    hide *;
    ReadyIsAnswered(st, sha);
    WiresAreShort(st, sha);
    ClientTakes(st, n, sha);
    var reply := Hdlc.Encoded(st.ClientWire(n, sha));
    var reaction := ClientReaction(ClientAt(st, n + 1, sha), Some(st.ClientWire(n, sha)));
    RunClientOnce(st.client, sha, ClientAt(st, n, sha), incoming, writes, st.Always(), st.clientAnswers);
    AwaitsNext(incoming, st.ServerWire(n, sha), tail);
    rest := Await(IDLE, incoming).rest;
    SendsFrame(reply, writes, more);
    ContinueClientOnce(st.client, sha, reaction, rest, writes, st.Always(), st.clientAnswers);
    left := SendFrame(reply, writes).rest;
    assert st.Always()(|rest|) == st.table by { AlwaysTheSame(st, |rest|); }
  }

  lemma AlwaysTheSame(st: Setting, n: nat)
    ensures st.Always()(n) == st.table
  {
  }

  lemma ClientIsDone(st: Setting, sha: Hash)
    requires st.Answered()
    ensures ClientAt(st, st.Turns() + 1, sha) == Completed(st, sha) && !Completed(st, sha).Wants()
    ensures !ClientAt(st, st.Turns(), sha).WantPubkey? && st.Turns() > 0
  {
    hide Setting.HelloWire, Setting.OwnWire, Setting.ServerMessage, Setting.ServerSignature;
  }

  /** The last frame. */
  lemma ClientEnds(st: Setting, sha: Hash, incoming: seq<ReadPoll>, writes: seq<WritePoll>, tail: bytes)
    requires st.Ready(sha) && st.ServerMade(sha) && NoEnd(incoming)
    requires Data(incoming) == Hdlc.Encoded(st.ServerWire(st.Turns(), sha)) + tail
    ensures var run := RunClient(st.client, sha, ClientAt(st, st.Turns(), sha), incoming, writes, st.Always(),
                                 st.clientAnswers);
            && run.standing == Stands(Completed(st, sha)) && run.sent == []
            && NoEnd(run.incoming) && Data(run.incoming) == tail
  {
    hide *;
    var n := st.Turns();
    ReadyIsAnswered(st, sha);
    WiresAreShort(st, sha);
    ClientTakes(st, n, sha);
    ClientIsDone(st, sha);
    RunClientOnce(st.client, sha, ClientAt(st, n, sha), incoming, writes, st.Always(), st.clientAnswers);
    AwaitsNext(incoming, st.ServerWire(n, sha), tail);
    AlwaysTheSame(st, |Await(IDLE, incoming).rest|);
    DoneRun(st.client, sha, Completed(st, sha), Await(IDLE, incoming).rest, writes, st.Always(), st.clientAnswers);
  }

  lemma ClientStillWants(st: Setting, n: nat, sha: Hash)
    requires st.Answered() && n <= st.Turns()
    ensures ClientAt(st, n, sha).Wants()
  {
    hide Setting.HelloWire, Setting.OwnWire;
  }

  lemma ClientWaits(st: Setting, sha: Hash, n: nat, incoming: seq<ReadPoll>, writes: seq<WritePoll>)
    requires st.Ready(sha) && n <= st.Turns() && NoEnd(incoming)
    requires IsPart(Data(incoming), Hdlc.Encoded(st.ServerWire(n, sha)))
    ensures var run := RunClient(st.client, sha, ClientAt(st, n, sha), incoming, writes, st.Always(), st.clientAnswers);
            run.standing == Waiting && run.sent == []
  {
    hide *;
    ReadyIsAnswered(st, sha);
    WiresAreShort(st, sha);
    ClientStillWants(st, n, sha);
    RunClientOnce(st.client, sha, ClientAt(st, n, sha), incoming, writes, st.Always(), st.clientAnswers);
    AwaitsPart(st.ServerWire(n, sha), incoming);
  }

  /** What comes of a client that had taken `n` frames and had those up to `b` waiting. */
  ghost predicate ClientGot(st: Setting, sha: Hash, n: nat, b: nat, tail: bytes, run: ClientRun)
    requires st.Answered()
  {
    && run.standing == (if b > st.Turns() then Stands(Completed(st, sha)) else Waiting)
    && run.sent == st.ClientSends(n, if b < st.Turns() then b else st.Turns(), sha)
    && (b > st.Turns() ==> NoEnd(run.incoming) && Data(run.incoming) == tail)
  }

  lemma ClientGotMore(st: Setting, sha: Hash, n: nat, b: nat, tail: bytes, next: ClientRun)
    requires st.Answered() && n < b && n < st.Turns() && ClientGot(st, sha, n + 1, b, tail, next)
    ensures ClientGot(st, sha, n, b, tail, next.(sent := Hdlc.Encoded(st.ClientWire(n, sha)) + next.sent))
  {
    hide Hdlc.Encoded, Setting.ClientWire, Completed, Data, NoEnd;
  }

  lemma ClientGotAll(st: Setting, sha: Hash, incoming: seq<ReadPoll>, writes: seq<WritePoll>, tail: bytes)
    requires st.Ready(sha) && st.ServerMade(sha) && NoEnd(incoming)
    requires Data(incoming) == st.ServerSends(st.Turns(), st.Turns() + 1, sha) + tail
    ensures ClientGot(st, sha, st.Turns(), st.Turns() + 1, tail,
                      RunClient(st.client, sha, ClientAt(st, st.Turns(), sha), incoming, writes, st.Always(),
                                st.clientAnswers))
  {
    var n := st.Turns();
    assert st.ServerSends(n, n + 1, sha) == Hdlc.Encoded(st.ServerWire(n, sha)) by {
      ReadyIsAnswered(st, sha);
      SendsUnfold(st, sha, n, n + 1);
      SendsUnfold(st, sha, n + 1, n + 1);
      assert Hdlc.Encoded(st.ServerWire(n, sha)) + [] == Hdlc.Encoded(st.ServerWire(n, sha));
    }
    SendsUnfold(st, sha, n, n);
    ClientEnds(st, sha, incoming, writes, tail);
    hide Setting.Turns, Hdlc.Encoded, NoEnd, Data, RunClient, ClientAt, Setting.Always, Completed, Setting.ServerWire,
      Setting.Ready;
  }

  lemma ClientGotNone(st: Setting, sha: Hash, n: nat, incoming: seq<ReadPoll>, writes: seq<WritePoll>, tail: bytes)
    requires st.Ready(sha) && n <= st.Turns() && NoEnd(incoming) && Data(incoming) == [] + tail
    requires IsPart(tail, Hdlc.Encoded(st.ServerWire(n, sha)))
    ensures ClientGot(st, sha, n, n, tail,
                      RunClient(st.client, sha, ClientAt(st, n, sha), incoming, writes, st.Always(), st.clientAnswers))
  {
    assert [] + tail == tail;
    SendsUnfold(st, sha, n, n);
    ClientWaits(st, sha, n, incoming, writes);
    hide Setting.Ready, Setting.ServerWire, NoEnd, Data, Hdlc.Encoded, RunClient, ClientAt, Setting.Always, Completed;
  }

  lemma ClientGoesOn(st: Setting, sha: Hash, n: nat, b: nat, incoming: seq<ReadPoll>, writes: seq<WritePoll>,
      tail: bytes) returns (rest: seq<ReadPoll>, left: seq<WritePoll>)
    requires st.Ready(sha) && n < b <= st.Turns() + 1 && n < st.Turns()
    requires NoEnd(incoming) && Data(incoming) == st.ServerSends(n, b, sha) + tail
    requires Willing(writes, |st.ClientSends(n, st.Turns(), sha)| + (st.Turns() - n))
    ensures NoEnd(rest) && Data(rest) == st.ServerSends(n + 1, b, sha) + tail
    ensures Willing(left, |st.ClientSends(n + 1, st.Turns(), sha)| + (st.Turns() - n - 1))
    ensures var next := RunClient(st.client, sha, ClientAt(st, n + 1, sha), rest, left, st.Always(), st.clientAnswers);
            RunClient(st.client, sha, ClientAt(st, n, sha), incoming, writes, st.Always(), st.clientAnswers)
            == next.(sent := Hdlc.Encoded(st.ClientWire(n, sha)) + next.sent)
  {
    hide *;
    ReadyIsAnswered(st, sha);
    SendsUnfold(st, sha, n, b);
    SendsUnfold(st, sha, n, st.Turns());
    var more := |st.ClientSends(n + 1, st.Turns(), sha)| + (st.Turns() - n - 1);
    Associates(Hdlc.Encoded(st.ServerWire(n, sha)), st.ServerSends(n + 1, b, sha), tail);
    rest, left := ClientTurn(st, sha, n, incoming, writes, st.ServerSends(n + 1, b, sha) + tail, more);
  }

  lemma {:induction false} ClientRuns(st: Setting, sha: Hash, n: nat, b: nat, incoming: seq<ReadPoll>,
      writes: seq<WritePoll>, tail: bytes)
    requires st.Ready(sha) && (b > st.Turns() ==> st.ServerMade(sha)) && n <= b <= st.Turns() + 1 && n <= st.Turns()
    requires NoEnd(incoming) && Data(incoming) == st.ServerSends(n, b, sha) + tail
    requires b <= st.Turns() ==> IsPart(tail, Hdlc.Encoded(st.ServerWire(b, sha)))
    requires Willing(writes, |st.ClientSends(n, st.Turns(), sha)| + (st.Turns() - n))
    ensures ClientGot(st, sha, n, b, tail,
                      RunClient(st.client, sha, ClientAt(st, n, sha), incoming, writes, st.Always(), st.clientAnswers))
    decreases b - n
  {
    hide *;
    ReadyIsAnswered(st, sha);
    SendsUnfold(st, sha, n, n);
    if n == b {
      ClientGotNone(st, sha, n, incoming, writes, tail);
    } else if n == st.Turns() {
      ClientGotAll(st, sha, incoming, writes, tail);
    } else {
      var rest, left := ClientGoesOn(st, sha, n, b, incoming, writes, tail);
      ClientRuns(st, sha, n + 1, b, rest, left, tail);
      ClientGotMore(st, sha, n, b, tail,
                    RunClient(st.client, sha, ClientAt(st, n + 1, sha), rest, left, st.Always(), st.clientAnswers));
    }
  }

  lemma SendsUnfold(st: Setting, sha: Hash, a: nat, b: nat)
    requires st.Answered()
    ensures st.ServerSends(a, b, sha)
         == if a >= b then [] else Hdlc.Encoded(st.ServerWire(a, sha)) + st.ServerSends(a + 1, b, sha)
    ensures st.ClientSends(a, b, sha)
         == if a >= b then [] else Hdlc.Encoded(st.ClientWire(a, sha)) + st.ClientSends(a + 1, b, sha)
  {
  }

  // ------------------------------------------------------------------------ the server

  function Accepted(st: Setting, sha: Hash): ServerPhase
    requires st.Answered()
  {
    ServerDone(st.Hello(sha), st.Own(sha), st.client.sign.PublicKeyBytes(), st.OwnWire(sha),
               st.ServerSignature(sha), st.serverAnswers.now)
  }

  lemma ServerTakesRequest(st: Setting, sha: Hash)
    requires st.Answered()
    ensures ServerStep(st.server, WantClient(st.Hello(sha)), Hdlc.Encoded([REQUEST_SERVER_PUBKEY_TYPE]),
                       st.table, st.serverAnswers)
         == ServerReaction(WantClient(st.Hello(sha)), Some(st.PubkeyWire()))
  {
    var wire, keys := [REQUEST_SERVER_PUBKEY_TYPE], Keys(None, None, st.server.sign.insecure);
    Hdlc.RoundTripBounds(wire);
    hide Hdlc.Encoded, Hdlc.Decoded, Deserialize;
    UnsignedExactly(RequestServerPubkey, wire, keys, None, st.table, 0, 0);
  }

  lemma AuthorisedHello(st: Setting, sha: Hash)
    requires st.Ready(sha) && st.ClientMade(sha)
    ensures var digest, bundle := sha(st.client.sign.PublicKeyBytes()), st.client.sign.PublicKeyBytes();
            && digest in st.server.authorized && st.server.authorized[digest] == bundle
            && |st.ClientSignature(sha)| == ConnSignatureLen(st.server.sign.insecure)
            && st.server.sign.PeerVerifier(bundle).Endorsed(st.table, st.ClientSignature(sha), st.ClientMessage(sha))
            && st.serverAnswers.sign(st.ServerMessage(sha)) == Some(st.ServerSignature(sha))
  {
    hide ConnVerify.Endorsed, Setting.ClientMessage, Setting.ClientSignature, Setting.ServerMessage, Setting.Made;
    MadeIsEndorsed(st, st.client.sign, st.ClientMessage(sha), st.ClientSignature(sha));
  }

  lemma ServerTakesHello(st: Setting, sha: Hash)
    requires st.Ready(sha) && st.ClientMade(sha)
    ensures ServerStep(st.server, WantClient(st.Hello(sha)), Hdlc.Encoded(st.OwnWire(sha)), st.table, st.serverAnswers)
         == ServerReaction(Accepted(st, sha), Some(st.CompleteWire(sha)))
  {
    var wire, own, signature := st.OwnWire(sha), st.Own(sha), st.ClientSignature(sha);
    ClientWireIsShort(st, sha);
    AuthorisedHello(st, sha);
    hide Setting.Ready, Setting.Answered, Hdlc.Encoded, Hdlc.Decoded, Deserialize, ServerHelloWire, PeekClientHello,
      EncodeClientHello, ClientHelloInput, ConnVerify.Endorsed, Setting.ClientMade, Setting.ServerSignature,
      Setting.ClientSignature;
    Hdlc.RoundTripBounds(wire);
    var v := st.server.sign.PeerVerifier(st.client.sign.PublicKeyBytes());
    ClientHelloPacketExactly(own, signature, wire, st.serverAnswers.unique.value, v, st.table, 0, 0);
  }

  lemma ClientWireIsShort(st: Setting, sha: Hash)
    requires st.Ready(sha)
    ensures |st.OwnWire(sha)| <= 32765 && st.Answered()
  {
  }

  /** Where a server stands that has taken `m` frames. */
  function ServerAt(st: Setting, m: nat, sha: Hash): ServerPhase
    requires st.Answered()
  {
    if m < st.Turns() then WantClient(st.Hello(sha)) else Accepted(st, sha)
  }

  lemma ServerTakes(st: Setting, m: nat, sha: Hash)
    requires st.Ready(sha) && (m + 1 == st.Turns() ==> st.ClientMade(sha)) && m < st.Turns()
    ensures ServerAt(st, m, sha).WantClient?
    ensures ServerStep(st.server, ServerAt(st, m, sha), Hdlc.Encoded(st.ClientWire(m, sha)), st.table, st.serverAnswers)
         == ServerReaction(ServerAt(st, m + 1, sha), Some(st.ServerWire(m + 1, sha)))
  {
    ReadyIsAnswered(st, sha);
    ServerTakesRequest(st, sha);
    if m + 1 == st.Turns() {
      ServerTakesHello(st, sha);
    }
    hide Setting.Ready, Setting.ServerMade, Setting.ClientMade, ServerStep, Hdlc.Encoded, Setting.HelloWire,
      Setting.OwnWire, Setting.PubkeyWire, Setting.CompleteWire, Accepted, Setting.Hello;
  }

  lemma ServerTurn(st: Setting, sha: Hash, m: nat, incoming: seq<ReadPoll>, writes: seq<WritePoll>, tail: bytes,
      more: nat) returns (rest: seq<ReadPoll>, left: seq<WritePoll>)
    requires st.Ready(sha) && (m + 1 == st.Turns() ==> st.ClientMade(sha)) && m < st.Turns() && NoEnd(incoming)
    requires Data(incoming) == Hdlc.Encoded(st.ClientWire(m, sha)) + tail
    requires Willing(writes, |Hdlc.Encoded(st.ServerWire(m + 1, sha))| + 1 + more)
    ensures NoEnd(rest) && Data(rest) == tail && Willing(left, more)
    ensures var next := RunServer(st.server, ServerAt(st, m + 1, sha), rest, left, st.Always(), st.serverAnswers);
            RunServer(st.server, ServerAt(st, m, sha), incoming, writes, st.Always(), st.serverAnswers)
            == next.(sent := Hdlc.Encoded(st.ServerWire(m + 1, sha)) + next.sent)
  {
    hide *;
    ReadyIsAnswered(st, sha);
    WiresAreShort(st, sha);
    ServerTakes(st, m, sha);
    var reply := Hdlc.Encoded(st.ServerWire(m + 1, sha));
    var reaction := ServerReaction(ServerAt(st, m + 1, sha), Some(st.ServerWire(m + 1, sha)));
    RunServerOnce(st.server, ServerAt(st, m, sha), incoming, writes, st.Always(), st.serverAnswers);
    AwaitsNext(incoming, st.ClientWire(m, sha), tail);
    rest := Await(IDLE, incoming).rest;
    SendsFrame(reply, writes, more);
    ContinueServerOnce(st.server, reaction, rest, writes, st.Always(), st.serverAnswers);
    left := SendFrame(reply, writes).rest;
    AlwaysTheSame(st, |rest|);
  }

  lemma ServerStillWants(st: Setting, m: nat, sha: Hash)
    requires st.Answered() && m < st.Turns()
    ensures ServerAt(st, m, sha).WantClient?
  {
  }

  lemma ServerWaits(st: Setting, sha: Hash, m: nat, incoming: seq<ReadPoll>, writes: seq<WritePoll>)
    requires st.Ready(sha) && m < st.Turns() && NoEnd(incoming)
    requires IsPart(Data(incoming), Hdlc.Encoded(st.ClientWire(m, sha)))
    ensures var run := RunServer(st.server, ServerAt(st, m, sha), incoming, writes, st.Always(), st.serverAnswers);
            run.standing == Waiting && run.sent == []
  {
    hide *;
    ReadyIsAnswered(st, sha);
    WiresAreShort(st, sha);
    ServerStillWants(st, m, sha);
    RunServerOnce(st.server, ServerAt(st, m, sha), incoming, writes, st.Always(), st.serverAnswers);
    AwaitsPart(st.ClientWire(m, sha), incoming);
  }

  /** What comes of a server that had taken `m` frames and had those up to `b` waiting. */
  ghost predicate ServerGot(st: Setting, sha: Hash, m: nat, b: nat, tail: bytes, run: ServerRun)
    requires st.Answered()
  {
    && run.standing == (if b >= st.Turns() then Stands(Accepted(st, sha)) else Waiting)
    && run.sent == st.ServerSends(m + 1, b + 1, sha)
    && (b >= st.Turns() ==> NoEnd(run.incoming) && Data(run.incoming) == tail)
  }

  lemma ServerGotMore(st: Setting, sha: Hash, m: nat, b: nat, tail: bytes, next: ServerRun)
    requires st.Answered() && m < b && ServerGot(st, sha, m + 1, b, tail, next)
    ensures ServerGot(st, sha, m, b, tail, next.(sent := Hdlc.Encoded(st.ServerWire(m + 1, sha)) + next.sent))
  {
    hide Hdlc.Encoded, Setting.ServerWire, Accepted, Data, NoEnd;
  }

  lemma ServerGotAll(st: Setting, sha: Hash, incoming: seq<ReadPoll>, writes: seq<WritePoll>, tail: bytes)
    requires st.Ready(sha) && NoEnd(incoming) && Data(incoming) == tail
    ensures st.Answered()
    ensures ServerGot(st, sha, st.Turns(), st.Turns(), tail,
                      RunServer(st.server, ServerAt(st, st.Turns(), sha), incoming, writes, st.Always(),
                          st.serverAnswers))
  {
    ReadyIsAnswered(st, sha);
    DoneServer(st.server, Accepted(st, sha), incoming, writes, st.Always(), st.serverAnswers);
    hide Hdlc.Encoded, Data, NoEnd, RunServer, Setting.Ready, Setting.Answered;
  }

  lemma ServerGotNone(st: Setting, sha: Hash, m: nat, incoming: seq<ReadPoll>, writes: seq<WritePoll>, tail: bytes)
    requires st.Ready(sha) && m < st.Turns() && NoEnd(incoming) && Data(incoming) == tail
    requires IsPart(tail, Hdlc.Encoded(st.ClientWire(m, sha)))
    ensures st.Answered()
    ensures ServerGot(st, sha, m, m, tail,
                      RunServer(st.server, ServerAt(st, m, sha), incoming, writes, st.Always(), st.serverAnswers))
  {
    ReadyIsAnswered(st, sha);
    ServerWaits(st, sha, m, incoming, writes);
    hide Setting.Ready, Setting.Answered, Setting.ServerWire, NoEnd, Data, Hdlc.Encoded, RunServer, ServerAt,
      Setting.Always, Accepted;
  }

  lemma ServerGoesOn(st: Setting, sha: Hash, m: nat, b: nat, incoming: seq<ReadPoll>, writes: seq<WritePoll>,
      tail: bytes) returns (rest: seq<ReadPoll>, left: seq<WritePoll>)
    requires st.Ready(sha) && (m + 1 == st.Turns() ==> st.ClientMade(sha)) && m < b <= st.Turns()
    requires NoEnd(incoming) && Data(incoming) == st.ClientSends(m, b, sha) + tail
    requires Willing(writes, |st.ServerSends(m + 1, st.Turns() + 1, sha)| + (st.Turns() - m))
    ensures NoEnd(rest) && Data(rest) == st.ClientSends(m + 1, b, sha) + tail
    ensures Willing(left, |st.ServerSends(m + 2, st.Turns() + 1, sha)| + (st.Turns() - m - 1))
    ensures var next := RunServer(st.server, ServerAt(st, m + 1, sha), rest, left, st.Always(), st.serverAnswers);
            RunServer(st.server, ServerAt(st, m, sha), incoming, writes, st.Always(), st.serverAnswers)
            == next.(sent := Hdlc.Encoded(st.ServerWire(m + 1, sha)) + next.sent)
  {
    hide *;
    ReadyIsAnswered(st, sha);
    SendsUnfold(st, sha, m, b);
    SendsUnfold(st, sha, m + 1, st.Turns() + 1);
    var more := |st.ServerSends(m + 2, st.Turns() + 1, sha)| + (st.Turns() - m - 1);
    Associates(Hdlc.Encoded(st.ClientWire(m, sha)), st.ClientSends(m + 1, b, sha), tail);
    rest, left := ServerTurn(st, sha, m, incoming, writes, st.ClientSends(m + 1, b, sha) + tail, more);
  }

  lemma {:induction false} ServerRuns(st: Setting, sha: Hash, m: nat, b: nat, incoming: seq<ReadPoll>,
      writes: seq<WritePoll>, tail: bytes)
    requires st.Ready(sha) && (b == st.Turns() ==> st.ClientMade(sha)) && m <= b <= st.Turns()
    requires NoEnd(incoming) && Data(incoming) == st.ClientSends(m, b, sha) + tail
    requires b < st.Turns() ==> IsPart(tail, Hdlc.Encoded(st.ClientWire(b, sha)))
    requires Willing(writes, |st.ServerSends(m + 1, st.Turns() + 1, sha)| + (st.Turns() - m))
    ensures ServerGot(st, sha, m, b, tail,
                      RunServer(st.server, ServerAt(st, m, sha), incoming, writes, st.Always(), st.serverAnswers))
    decreases b - m
  {
    hide *;
    ReadyIsAnswered(st, sha);
    SendsUnfold(st, sha, m, m);
    assert [] + tail == tail;
    if m < b {
      var rest, left := ServerGoesOn(st, sha, m, b, incoming, writes, tail);
      ServerRuns(st, sha, m + 1, b, rest, left, tail);
      ServerGotMore(st, sha, m, b, tail,
                    RunServer(st.server, ServerAt(st, m + 1, sha), rest, left, st.Always(), st.serverAnswers));
    } else if m == st.Turns() {
      ServerGotAll(st, sha, incoming, writes, tail);
    } else {
      ServerGotNone(st, sha, m, incoming, writes, tail);
    }
  }
}
