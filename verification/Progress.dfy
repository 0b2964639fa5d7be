/** The handshake gets going and gets done: progress from whatever has arrived, completion
    of two ends that take turns from empty channels, and no deadlock. */
module Progress {
  import opened Bytes
  import opened Wrappers
  import opened Completion
  import opened FaithfulStreams
  import opened FrameReader
  import opened FrameStreams
  import opened Handshake
  import opened HandshakeProgram
  import opened PacketLaws
  import opened Packets
  import opened Signatures
  import opened Transport
  import opened TransportRuns
  import Hdlc

  function Client(st: Setting, sha: Hash, incoming: seq<ReadPoll>, writes: seq<WritePoll>): ClientRun {
    RunClient(st.client, sha, WantHello, incoming, writes, st.Always(), st.clientAnswers)
  }

  function Server(st: Setting, sha: Hash, incoming: seq<ReadPoll>, writes: seq<WritePoll>): ServerRun {
    StartServer(st.server, sha, incoming, writes, st.Always(), st.serverAnswers)
  }

  // ------------------------------------------------------- from whatever has arrived

  /** A client to which `b` frames have come, and a part of the next: it has sent its own
      frames up to number `b` and waits, or is done if those were all, and has left what
      follows them. Each frame is sent on the strength of those before it. */
  lemma ClientProgress(st: Setting, sha: Hash, b: nat, incoming: seq<ReadPoll>, writes: seq<WritePoll>, tail: bytes)
    requires st.Ready(sha) && b <= st.Turns() + 1 && (b > st.Turns() ==> st.ServerMade(sha))
    requires NoEnd(incoming) && Data(incoming) == st.ServerSends(0, b, sha) + tail
    requires b <= st.Turns() ==> IsPart(tail, Hdlc.Encoded(st.ServerWire(b, sha)))
    requires Willing(writes, st.ClientNeeds(sha))
    ensures ClientGot(st, sha, 0, b, tail, Client(st, sha, incoming, writes))
  {
    hide *;
    ReadyIsAnswered(st, sha);
    NeedsAre(st, sha);
    ClientRuns(st, sha, 0, b, incoming, writes, tail);
    StartsAre(st, sha, incoming, writes);
  }

  lemma NeedsAre(st: Setting, sha: Hash)
    requires st.Answered()
    ensures st.ClientNeeds(sha) == |st.ClientSends(0, st.Turns(), sha)| + (st.Turns() - 0)
    ensures st.ServerNeeds(sha)
         == |Hdlc.Encoded(st.HelloWire(sha))| + 1 + (|st.ServerSends(1, st.Turns() + 1, sha)| + (st.Turns() - 0))
  {
    hide Hdlc.Encoded, Setting.HelloWire, Setting.PubkeyWire, Setting.CompleteWire;
  }

  lemma StartsAre(st: Setting, sha: Hash, incoming: seq<ReadPoll>, writes: seq<WritePoll>)
    requires st.Answered()
    ensures Client(st, sha, incoming, writes)
         == RunClient(st.client, sha, ClientAt(st, 0, sha), incoming, writes, st.Always(), st.clientAnswers)
    ensures Server(st, sha, incoming, writes)
         == ContinueServer(st.server, ServerReaction(ServerAt(st, 0, sha), Some(st.HelloWire(sha))), incoming, writes,
                           st.Always(), st.serverAnswers)
  {
    hide RunClient, ContinueServer;
  }

  /** A server to which `b` frames have come has sent its own up to number `b`, the first
      of them unasked. */
  lemma ServerProgress(st: Setting, sha: Hash, b: nat, incoming: seq<ReadPoll>, writes: seq<WritePoll>, tail: bytes)
    requires st.Ready(sha) && b <= st.Turns() && (b == st.Turns() ==> st.ClientMade(sha))
    requires NoEnd(incoming) && Data(incoming) == st.ClientSends(0, b, sha) + tail
    requires b < st.Turns() ==> IsPart(tail, Hdlc.Encoded(st.ClientWire(b, sha)))
    requires Willing(writes, st.ServerNeeds(sha))
    ensures var run := Server(st, sha, incoming, writes);
            && run.standing == (if b == st.Turns() then Stands(Accepted(st, sha)) else Waiting)
            && run.sent == st.ServerSends(0, b + 1, sha)
            && (b == st.Turns() ==> NoEnd(run.incoming) && Data(run.incoming) == tail)
  {
    hide *;
    ReadyIsAnswered(st, sha);
    NeedsAre(st, sha);
    StartsAre(st, sha, incoming, writes);
    var hello := Hdlc.Encoded(st.HelloWire(sha));
    SendsFrame(hello, writes, |st.ServerSends(1, st.Turns() + 1, sha)| + (st.Turns() - 0));
    var left := SendFrame(hello, writes).rest;
    ContinueServerOnce(st.server, ServerReaction(ServerAt(st, 0, sha), Some(st.HelloWire(sha))), incoming, writes,
                       st.Always(), st.serverAnswers);
    ServerRuns(st, sha, 0, b, incoming, left, tail);
    var next := RunServer(st.server, ServerAt(st, 0, sha), incoming, left, st.Always(), st.serverAnswers);
    ServerGotIs(st, sha, b, tail, next);
  }

  lemma ServerGotIs(st: Setting, sha: Hash, b: nat, tail: bytes, next: ServerRun)
    requires st.Answered() && b <= st.Turns() && ServerGot(st, sha, 0, b, tail, next)
    ensures next.standing == (if b == st.Turns() then Stands(Accepted(st, sha)) else Waiting)
    ensures Hdlc.Encoded(st.HelloWire(sha)) + next.sent == st.ServerSends(0, b + 1, sha)
    ensures b == st.Turns() ==> NoEnd(next.incoming) && Data(next.incoming) == tail
  {
    hide Hdlc.Encoded, Setting.HelloWire, Accepted, NoEnd, Data, Setting.PubkeyWire, Setting.CompleteWire;
  }

  lemma ClientGotIs(st: Setting, sha: Hash, b: nat, tail: bytes, run: ClientRun)
    requires st.Answered() && ClientGot(st, sha, 0, b, tail, run)
    ensures run.standing == (if b > st.Turns() then Stands(Completed(st, sha)) else Waiting)
    ensures run.sent == st.ClientSends(0, if b < st.Turns() then b else st.Turns(), sha)
    ensures b > st.Turns() ==> NoEnd(run.incoming) && Data(run.incoming) == tail
  {
    hide Completed, NoEnd, Data, Setting.ClientSends;
  }

  /** Each end with all that the other sends, and whatever follows: both complete, by either
      path, with each other's packet keys and both counters at 0, have sent exactly what the
      other was given, and leave what follows for their payload streams to read. */
  lemma BothComplete(st: Setting, sha: Hash, clientIncoming: seq<ReadPoll>, clientWrites: seq<WritePoll>,
      afterComplete: bytes, serverIncoming: seq<ReadPoll>, serverWrites: seq<WritePoll>, afterHello: bytes)
    requires st.Agreed(sha)
    requires NoEnd(clientIncoming) && Data(clientIncoming) == st.ServerSends(0, st.Turns() + 1, sha) + afterComplete
    requires NoEnd(serverIncoming) && Data(serverIncoming) == st.ClientSends(0, st.Turns(), sha) + afterHello
    requires Willing(clientWrites, st.ClientNeeds(sha)) && Willing(serverWrites, st.ServerNeeds(sha))
    ensures var c, s := Client(st, sha, clientIncoming, clientWrites), Server(st, sha, serverIncoming, serverWrites);
            && c.sent == st.ClientSends(0, st.Turns(), sha) && s.sent == st.ServerSends(0, st.Turns() + 1, sha)
            && NoEnd(c.incoming) && Data(c.incoming) == afterComplete
            && NoEnd(s.incoming) && Data(s.incoming) == afterHello
            && c.standing.Stands? && c.standing.phase.ClientDone?
            && s.standing.Stands? && s.standing.phase.ServerDone?
            && c.standing.phase.hello == s.standing.phase.hello
            && c.standing.phase.own == s.standing.phase.client
            && ClientTransport(c.standing.phase) == Fresh(st.serverAnswers.packetKey.value, st.clientAnswers.now)
            && ServerTransport(s.standing.phase) == Fresh(st.clientAnswers.packetKey.value, st.serverAnswers.now)
            && ClientTransport(c.standing.phase).signCounter == ServerTransport(s.standing.phase).signCounter == 0
            && ClientTransport(c.standing.phase).verifier.counter ==
                 ServerTransport(s.standing.phase).verifier.counter == 0
  {
    hide *;
    AgreedIsReady(st, sha);
    ClientProgress(st, sha, st.Turns() + 1, clientIncoming, clientWrites, afterComplete);
    ClientGotIs(st, sha, st.Turns() + 1, afterComplete, Client(st, sha, clientIncoming, clientWrites));
    ServerProgress(st, sha, st.Turns(), serverIncoming, serverWrites, afterHello);
    PhasesMatch(st, sha);
  }

  lemma PhasesMatch(st: Setting, sha: Hash)
    requires st.Answered()
    ensures var c, s := Completed(st, sha), Accepted(st, sha);
            && c.ClientDone? && s.ServerDone? && c.hello == s.hello && c.own == s.client
            && ClientTransport(c) == Fresh(st.serverAnswers.packetKey.value, st.clientAnswers.now)
            && ServerTransport(s) == Fresh(st.clientAnswers.packetKey.value, st.serverAnswers.now)
            && ClientTransport(c).signCounter == ServerTransport(s).signCounter == 0
            && ClientTransport(c).verifier.counter == ServerTransport(s).verifier.counter == 0
  {
  }

  // -------------------------------------------------------------------- no foresight

  lemma {:induction false} ReadFrameAppend(r: Reader, x: seq<ReadPoll>, y: seq<ReadPoll>)
    requires ReadFrame(r, x).outcome != Suspended || (exists i :: 0 <= i < |x| && x[i] == Pending)
    ensures var step := ReadFrame(r, x);
            ReadFrame(r, x + y) == step.(rest := step.rest + y)
    decreases |x|
  {
    if x != [] {
      assert (x + y)[1..] == x[1..] + y;
      var next := React(r, x[0]);
      if next.outcome.None? {
        assert ReadFrame(r, x) == ReadFrame(next.reader, x[1..]);
        if ReadFrame(r, x).outcome == Suspended {
          var i :| 0 <= i < |x| && x[i] == Pending;
          assert x[1..][i - 1] == Pending;
        }
        ReadFrameAppend(next.reader, x[1..], y);
      }
    }
  }

  lemma {:induction false} Unpaused(r: Reader, x: seq<ReadPoll>, y: seq<ReadPoll>)
    requires ReadFrame(r, x).outcome == Suspended && (forall i :: 0 <= i < |x| ==> x[i] != Pending)
    ensures var step := ReadFrame(r, x);
            step.rest == [] && ReadFrame(r, x + y) == ReadFrame(step.reader, y)
    decreases |x|
  {
    if x == [] {
      assert x + y == y;
    } else {
      assert (x + y)[1..] == x[1..] + y;
      Unpaused(React(r, x[0]).reader, x[1..], y);
    }
  }

  /** A frame that has come is the same whatever comes after it. */
  lemma {:induction false} AwaitAppend(r: Reader, x: seq<ReadPoll>, y: seq<ReadPoll>)
    requires Await(r, x).outcome != Suspended
    ensures var step := Await(r, x);
            Await(r, x + y) == step.(rest := step.rest + y)
    decreases |x|
  {
    hide ReadFrame;
    var step := ReadFrame(r, x);
    if x == [] {
      AwaitNothing(r);
    } else if step.outcome != Suspended {
      ReadFrameAppend(r, x, y);
    } else {
      ReadFrameShrinks(r, x);
      if forall i :: 0 <= i < |x| ==> x[i] != Pending {
        Unpaused(r, x, y);
        AwaitNothing(step.reader);
      } else {
        ReadFrameAppend(r, x, y);
        AwaitAppend(step.reader, step.rest, y);
      }
    }
  }

  /** The library accepts the same throughout. */
  ghost predicate Unchanging(tables: Tables) {
    forall m: nat, n: nat :: tables(m) == tables(n)
  }

  lemma SameTable(tables: Tables, m: nat, n: nat)
    requires Unchanging(tables)
    ensures tables(m) == tables(n)
  {
  }

  /** What a client has sent by the time it waits for more does not depend on what more
      there will be: with more polls in store it has sent the same, and perhaps more. */
  lemma {:induction false} ClientHasNoForesight(cfg: ClientConfig, sha: Hash, phase: ClientPhase, x: seq<ReadPoll>,
      y: seq<ReadPoll>, writes: seq<WritePoll>, tables: Tables, a: Answers)
    requires Unchanging(tables)
    ensures RunClient(cfg, sha, phase, x, writes, tables, a).sent
         <= RunClient(cfg, sha, phase, x + y, writes, tables, a).sent
    decreases |x|
  {
    hide RunClient, ContinueClient, ClientStep, SendFrame, Await, Hdlc.Encoded;
    if phase.Wants() {
      RunClientOnce(cfg, sha, phase, x, writes, tables, a);
      var step := Await(IDLE, x);
      AwaitConsumes(IDLE, x);
      if step.outcome != Suspended {
        AwaitAppend(IDLE, x, y);
        SameTable(tables, |step.rest|, |step.rest + y|);
        RunClientOnce(cfg, sha, phase, x + y, writes, tables, a);
        if step.outcome.Frame? {
          var reaction := ClientStep(cfg, sha, phase, step.outcome.frame, tables(|step.rest|), a);
          if reaction.reply.Some? {
            ContinueClientOnce(cfg, sha, reaction, step.rest, writes, tables, a);
            ContinueClientOnce(cfg, sha, reaction, step.rest + y, writes, tables, a);
            var left := SendFrame(Hdlc.Encoded(reaction.reply.value), writes).rest;
            ClientHasNoForesight(cfg, sha, reaction.phase, step.rest, y, left, tables, a);
          } else {
            ContinuesSilently(cfg, sha, reaction, step.rest, writes, tables, a);
            ContinuesSilently(cfg, sha, reaction, step.rest + y, writes, tables, a);
            ClientHasNoForesight(cfg, sha, reaction.phase, step.rest, y, writes, tables, a);
          }
        }
      }
    } else {
      ClientStands(cfg, sha, phase, x, writes, tables, a);
      ClientStands(cfg, sha, phase, x + y, writes, tables, a);
    }
  }

  lemma {:induction false} ServerHasNoForesight(cfg: ServerConfig, phase: ServerPhase, x: seq<ReadPoll>,
      y: seq<ReadPoll>, writes: seq<WritePoll>, tables: Tables, a: Answers)
    requires Unchanging(tables)
    ensures RunServer(cfg, phase, x, writes, tables, a).sent
         <= RunServer(cfg, phase, x + y, writes, tables, a).sent
    decreases |x|
  {
    hide RunServer, ContinueServer, ServerStep, SendFrame, Await, Hdlc.Encoded;
    if phase.WantClient? {
      RunServerOnce(cfg, phase, x, writes, tables, a);
      var step := Await(IDLE, x);
      AwaitConsumes(IDLE, x);
      if step.outcome != Suspended {
        AwaitAppend(IDLE, x, y);
        SameTable(tables, |step.rest|, |step.rest + y|);
        RunServerOnce(cfg, phase, x + y, writes, tables, a);
        if step.outcome.Frame? {
          var reaction := ServerStep(cfg, phase, step.outcome.frame, tables(|step.rest|), a);
          ServerStepReplies(cfg, phase, step.outcome.frame, tables(|step.rest|), a);
          if reaction.reply.Some? {
            ContinueServerOnce(cfg, reaction, step.rest, writes, tables, a);
            ContinueServerOnce(cfg, reaction, step.rest + y, writes, tables, a);
            var left := SendFrame(Hdlc.Encoded(reaction.reply.value), writes).rest;
            ServerHasNoForesight(cfg, reaction.phase, step.rest, y, left, tables, a);
          } else {
            RefusedServer(cfg, step.rest, writes, tables, a);
            RefusedServer(cfg, step.rest + y, writes, tables, a);
          }
        }
      }
    } else {
      DoneServer(cfg, phase, x, writes, tables, a);
      DoneServer(cfg, phase, x + y, writes, tables, a);
    }
  }

  // --------------------------------------------------------------- from empty channels

  /** What the two ends have in store when each looks again, and what the signature library
      accepts by then; the server goes first. */
  datatype Round = Round(serverIncoming: seq<ReadPoll>, serverWrites: seq<WritePoll>,
    clientIncoming: seq<ReadPoll>, clientWrites: seq<WritePoll>, table: Table)

  /** A setting as of a round. */
  function AsOf(st: Setting, table: Table): Setting { st.(table := table) }

  function ServerIn(st: Setting, sha: Hash, r: Round): ServerRun {
    Server(AsOf(st, r.table), sha, r.serverIncoming, r.serverWrites)
  }

  function ClientIn(st: Setting, sha: Hash, r: Round): ClientRun {
    Client(AsOf(st, r.table), sha, r.clientIncoming, r.clientWrites)
  }

  /** What the client had sent before round `k`. */
  function SentBefore(st: Setting, sha: Hash, rounds: seq<Round>, k: nat): bytes
    requires k <= |rounds|
  {
    if k == 0 then [] else ClientIn(st, sha, rounds[k - 1]).sent
  }

  /** In each round each end has been brought exactly what the other had sent by its last
      turn: at first nothing. */
  ghost predicate TakeTurns(st: Setting, sha: Hash, rounds: seq<Round>)
    requires st.Answered()
  {
    forall k :: 0 <= k < |rounds| ==> Turn(st, sha, rounds[k], SentBefore(st, sha, rounds, k))
  }

  /** The library accepts the client's signature once all of the client's frames are out,
      and the server's once the server has accepted. */
  ghost predicate Turn(st: Setting, sha: Hash, r: Round, clientSent: bytes)
    requires st.Answered()
  {
    && NoEnd(r.serverIncoming) && Data(r.serverIncoming) == clientSent
    && NoEnd(r.clientIncoming) && Data(r.clientIncoming) == ServerIn(st, sha, r).sent
    && Willing(r.serverWrites, st.ServerNeeds(sha)) && Willing(r.clientWrites, st.ClientNeeds(sha))
    && (clientSent == st.ClientSends(0, st.Turns(), sha) ==> AsOf(st, r.table).ClientMade(sha))
    && (ServerIn(st, sha, r).standing.Stands? ==> AsOf(st, r.table).ServerMade(sha))
  }

  function Least(a: nat, b: nat): nat { if a < b then a else b }

  /** Nothing but acceptance depends on the table. */
  lemma {:induction false} SendsAsOf(st: Setting, table: Table, sha: Hash, a: nat, b: nat)
    requires st.Answered()
    ensures AsOf(st, table).Answered() && AsOf(st, table).Turns() == st.Turns()
    ensures AsOf(st, table).ServerSends(a, b, sha) == st.ServerSends(a, b, sha)
    ensures AsOf(st, table).ClientSends(a, b, sha) == st.ClientSends(a, b, sha)
    decreases b - a
  {
    WiresAsOf(st, table, sha, a);
    hide Hdlc.Encoded, Setting.ServerWire, Setting.ClientWire;
    if a < b {
      SendsAsOf(st, table, sha, a + 1, b);
    }
  }

  lemma WiresAsOf(st: Setting, table: Table, sha: Hash, a: nat)
    requires st.Answered()
    ensures AsOf(st, table).Answered()
    ensures AsOf(st, table).ServerWire(a, sha) == st.ServerWire(a, sha)
    ensures AsOf(st, table).ClientWire(a, sha) == st.ClientWire(a, sha)
  {
    hide ServerHelloWire, ClientHelloWire, ClientHelloInput;
  }

  lemma SettingAsOf(st: Setting, table: Table, sha: Hash)
    requires st.Ready(sha)
    ensures st.Answered() && AsOf(st, table).Answered() && AsOf(st, table).Ready(sha)
    ensures Completed(AsOf(st, table), sha) == Completed(st, sha) && Accepted(AsOf(st, table), sha) == Accepted(st, sha)
    ensures AsOf(st, table).ClientNeeds(sha) == st.ClientNeeds(sha)
    ensures AsOf(st, table).ServerNeeds(sha) == st.ServerNeeds(sha)
  {
    SendsAsOf(st, table, sha, 0, st.Turns());
    SendsAsOf(st, table, sha, 0, st.Turns() + 1);
    hide Setting.ClientSends, Setting.ServerSends, ServerHelloWire, ClientHelloWire, ClientHelloInput;
  }

  lemma TurnIs(st: Setting, sha: Hash, r: Round, clientSent: bytes)
    requires st.Answered() && Turn(st, sha, r, clientSent)
    ensures NoEnd(r.serverIncoming) && Data(r.serverIncoming) == clientSent
    ensures NoEnd(r.clientIncoming) && Data(r.clientIncoming) == ServerIn(st, sha, r).sent
    ensures Willing(r.serverWrites, st.ServerNeeds(sha)) && Willing(r.clientWrites, st.ClientNeeds(sha))
    ensures AsOf(st, r.table).Answered()
    ensures clientSent == st.ClientSends(0, st.Turns(), sha) ==> AsOf(st, r.table).ClientMade(sha)
    ensures ServerIn(st, sha, r).standing.Stands? ==> AsOf(st, r.table).ServerMade(sha)
  {
    hide NoEnd, Data, Server, Willing, Setting.ClientMade, Setting.ServerMade, Setting.ClientSends;
  }

  lemma OneTurn(st: Setting, sha: Hash, r: Round, m: nat)
    requires st.Ready(sha) && m <= st.Turns() && st.Answered() && Turn(st, sha, r, st.ClientSends(0, m, sha))
    ensures var c, s := ClientIn(st, sha, r), ServerIn(st, sha, r);
            && c.sent == st.ClientSends(0, Least(m + 1, st.Turns()), sha) && s.sent == st.ServerSends(0, m + 1, sha)
            && c.standing == (if m == st.Turns() then Stands(Completed(st, sha)) else Waiting)
            && s.standing == (if m == st.Turns() then Stands(Accepted(st, sha)) else Waiting)
  {
    hide *;
    var now := AsOf(st, r.table);
    TurnIs(st, sha, r, st.ClientSends(0, m, sha));
    LeastIs(m + 1, st.Turns());
    SettingAsOf(st, r.table, sha);
    SendsAsOf(st, r.table, sha, 0, m);
    SendsAsOf(st, r.table, sha, 0, m + 1);
    SendsAsOf(st, r.table, sha, 0, if m + 1 < st.Turns() then m + 1 else st.Turns());
    NothingIsPart(now, sha, m);
    InIs(st, sha, r);
    assert now.ClientSends(0, m, sha) + [] == now.ClientSends(0, m, sha);
    assert now.ServerSends(0, m + 1, sha) + [] == now.ServerSends(0, m + 1, sha);
    ServerProgress(now, sha, m, r.serverIncoming, r.serverWrites, []);
    ClientProgress(now, sha, m + 1, r.clientIncoming, r.clientWrites, []);
    ClientGotIs(now, sha, m + 1, [], Client(now, sha, r.clientIncoming, r.clientWrites));
  }

  lemma InIs(st: Setting, sha: Hash, r: Round)
    ensures ClientIn(st, sha, r) == Client(AsOf(st, r.table), sha, r.clientIncoming, r.clientWrites)
    ensures ServerIn(st, sha, r) == Server(AsOf(st, r.table), sha, r.serverIncoming, r.serverWrites)
  {
  }

  lemma LeastIs(a: nat, b: nat)
    ensures Least(a, b) == if a < b then a else b
  {
  }

  lemma NothingIsPart(st: Setting, sha: Hash, m: nat)
    requires st.Answered()
    ensures IsPart([], Hdlc.Encoded(st.ClientWire(m, sha))) && IsPart([], Hdlc.Encoded(st.ServerWire(m + 1, sha)))
  {
    hide Hdlc.Encoded, Setting.ClientWire, Setting.ServerWire, Setting.Answered;
    EncodedIsDelimited(st.ClientWire(m, sha));
    EncodedIsDelimited(st.ServerWire(m + 1, sha));
  }

  /** Two ends that take turns, starting with nothing on either channel, wherever Pending
      falls and however short the writes: both wait, and have sent one frame more each
      round, until after two rounds, or three if the client has to ask for the key, both
      are done. */
  lemma {:induction false} TurnsComplete(st: Setting, sha: Hash, rounds: seq<Round>, k: nat)
    requires st.Ready(sha) && st.Answered() && TakeTurns(st, sha, rounds) && k < |rounds|
    ensures var c, s := ClientIn(st, sha, rounds[k]), ServerIn(st, sha, rounds[k]);
            && c.sent == st.ClientSends(0, Least(k + 1, st.Turns()), sha)
            && s.sent == st.ServerSends(0, Least(k, st.Turns()) + 1, sha)
            && c.standing == (if k >= st.Turns() then Stands(Completed(st, sha)) else Waiting)
            && s.standing == (if k >= st.Turns() then Stands(Accepted(st, sha)) else Waiting)
  {
    hide *;
    TurnAt(st, sha, rounds, k);
    LeastIs(k, st.Turns());
    LeastIs(k + 1, st.Turns());
    LeastIs(Least(k, st.Turns()) + 1, st.Turns());
    SendsUnfold(st, sha, 0, 0);
    if k > 0 {
      TurnsComplete(st, sha, rounds, k - 1);
    }
    OneTurn(st, sha, rounds[k], Least(k, st.Turns()));
  }

  lemma TurnAt(st: Setting, sha: Hash, rounds: seq<Round>, k: nat)
    requires st.Answered() && TakeTurns(st, sha, rounds) && k < |rounds|
    ensures Turn(st, sha, rounds[k], if k == 0 then [] else ClientIn(st, sha, rounds[k - 1]).sent)
  {
    hide Turn, ClientIn;
    assert Turn(st, sha, rounds[k], SentBefore(st, sha, rounds, k));
  }

  // ------------------------------------------------------------------------ no deadlock

  lemma WholeIsPart(y: bytes, f: bytes)
    requires |y| < |f| && y == f[..|y|]
    ensures IsPart(y, f)
  {
  }

  /** Where a client stands to which a prefix of the server's bytes has come. */
  lemma {:induction false} ServerPrefix(st: Setting, sha: Hash, a: nat, y: bytes) returns (b: nat, tail: bytes)
    requires st.Answered() && a <= st.Turns() + 1 && y <= st.ServerSends(a, st.Turns() + 1, sha)
    ensures a <= b <= st.Turns() + 1 && y == st.ServerSends(a, b, sha) + tail
    ensures b <= st.Turns() ==> IsPart(tail, Hdlc.Encoded(st.ServerWire(b, sha)))
    ensures b > st.Turns() ==> tail == []
    decreases st.Turns() + 1 - a
  {
    hide *;
    SendsUnfold(st, sha, a, st.Turns() + 1);
    SendsUnfold(st, sha, a, a);
    if a == st.Turns() + 1 {
      b, tail := a, [];
    } else {
      var f := Hdlc.Encoded(st.ServerWire(a, sha));
      var rest := st.ServerSends(a + 1, st.Turns() + 1, sha);
      if |y| < |f| {
        assert y == (f + rest)[..|y|] == f[..|y|];
        WholeIsPart(y, f);
        b, tail := a, y;
      } else {
        assert y == (f + rest)[..|y|];
        assert y == f + y[|f|..] && y[|f|..] == rest[..|y| - |f|];
        b, tail := ServerPrefix(st, sha, a + 1, y[|f|..]);
        SendsUnfold(st, sha, a, b);
        Associates(f, st.ServerSends(a + 1, b, sha), tail);
      }
    }
  }

  lemma {:induction false} ClientPrefix(st: Setting, sha: Hash, a: nat, x: bytes) returns (b: nat, tail: bytes)
    requires st.Answered() && a <= st.Turns() && x <= st.ClientSends(a, st.Turns(), sha)
    ensures a <= b <= st.Turns() && x == st.ClientSends(a, b, sha) + tail
    ensures b < st.Turns() ==> IsPart(tail, Hdlc.Encoded(st.ClientWire(b, sha)))
    ensures b == st.Turns() ==> tail == []
    decreases st.Turns() - a
  {
    hide *;
    SendsUnfold(st, sha, a, st.Turns());
    SendsUnfold(st, sha, a, a);
    if a == st.Turns() {
      b, tail := a, [];
    } else {
      var f := Hdlc.Encoded(st.ClientWire(a, sha));
      var rest := st.ClientSends(a + 1, st.Turns(), sha);
      if |x| < |f| {
        assert x == (f + rest)[..|x|] == f[..|x|];
        WholeIsPart(x, f);
        b, tail := a, x;
      } else {
        assert x == (f + rest)[..|x|];
        assert x == f + x[|f|..] && x[|f|..] == rest[..|x| - |f|];
        b, tail := ClientPrefix(st, sha, a + 1, x[|f|..]);
        SendsUnfold(st, sha, a, b);
        Associates(f, st.ClientSends(a + 1, b, sha), tail);
      }
    }
  }

  /** Frame counts can be told from byte counts. */
  lemma {:induction false} SendsGrow(st: Setting, sha: Hash, a: nat, b: nat, c: nat)
    requires st.Answered() && a <= b < c
    ensures |st.ServerSends(a, b, sha)| + |Hdlc.Encoded(st.ServerWire(b, sha))| <= |st.ServerSends(a, c, sha)|
    ensures |st.ClientSends(a, b, sha)| + |Hdlc.Encoded(st.ClientWire(b, sha))| <= |st.ClientSends(a, c, sha)|
    decreases b - a
  {
    hide Setting.ServerSends, Setting.ClientSends, Setting.ServerWire, Setting.ClientWire, Setting.Answered,
        Hdlc.Encoded;
    SendsUnfold(st, sha, a, b);
    SendsUnfold(st, sha, a, c);
    if a < b {
      SendsGrow(st, sha, a + 1, b, c);
    }
  }

  lemma ServerCount(st: Setting, sha: Hash, n: nat, b: nat, tail: bytes)
    requires st.Answered() && n <= st.Turns() + 1 && b <= st.Turns() + 1
    requires st.ServerSends(0, n, sha) == st.ServerSends(0, b, sha) + tail
    requires b <= st.Turns() ==> IsPart(tail, Hdlc.Encoded(st.ServerWire(b, sha)))
    ensures n == b
  {
    hide Setting.ServerSends, Setting.ServerWire, Setting.Answered, Hdlc.Encoded, Setting.Turns;
    EncodedIsDelimited(st.ServerWire(n, sha));
    if n < b {
      SendsGrow(st, sha, 0, n, b);
    } else if b < n {
      SendsGrow(st, sha, 0, b, n);
    }
  }

  lemma ClientCount(st: Setting, sha: Hash, n: nat, b: nat, tail: bytes)
    requires st.Answered() && n <= st.Turns() && b <= st.Turns()
    requires st.ClientSends(0, n, sha) == st.ClientSends(0, b, sha) + tail
    requires b < st.Turns() ==> IsPart(tail, Hdlc.Encoded(st.ClientWire(b, sha)))
    ensures n == b
  {
    hide Setting.ClientSends, Setting.ClientWire, Setting.Answered, Hdlc.Encoded, Setting.Turns;
    EncodedIsDelimited(st.ClientWire(n, sha));
    if n < b {
      SendsGrow(st, sha, 0, n, b);
    } else if b < n {
      SendsGrow(st, sha, 0, b, n);
    }
  }

  /** Whatever the order in which bytes were brought: when all that either end has sent has
      been brought to the other and neither has more to do, both are done. */
  lemma NoDeadlock(st: Setting, sha: Hash, clientIncoming: seq<ReadPoll>, clientWrites: seq<WritePoll>,
      serverIncoming: seq<ReadPoll>, serverWrites: seq<WritePoll>)
    requires st.Ready(sha) && st.Answered() && NoEnd(clientIncoming) && NoEnd(serverIncoming)
    requires Data(serverIncoming) == st.ClientSends(0, st.Turns(), sha) ==> st.ClientMade(sha)
    requires Server(st, sha, serverIncoming, serverWrites).standing.Stands? ==> st.ServerMade(sha)
    requires Willing(clientWrites, st.ClientNeeds(sha)) && Willing(serverWrites, st.ServerNeeds(sha))
    requires Data(clientIncoming) <= st.ServerSends(0, st.Turns() + 1, sha)
    requires Data(serverIncoming) <= st.ClientSends(0, st.Turns(), sha)
    requires Data(clientIncoming) == Server(st, sha, serverIncoming, serverWrites).sent
    requires Data(serverIncoming) == Client(st, sha, clientIncoming, clientWrites).sent
    ensures Client(st, sha, clientIncoming, clientWrites).standing == Stands(Completed(st, sha))
    ensures Server(st, sha, serverIncoming, serverWrites).standing == Stands(Accepted(st, sha))
  {
    hide *;
    var b, t := ServerPrefix(st, sha, 0, Data(clientIncoming));
    var d, u := ClientPrefix(st, sha, 0, Data(serverIncoming));
    assert st.ClientSends(0, d, sha) + [] == st.ClientSends(0, d, sha);
    ServerProgress(st, sha, d, serverIncoming, serverWrites, u);
    ServerCount(st, sha, d + 1, b, t);
    ClientProgress(st, sha, b, clientIncoming, clientWrites, t);
    ClientGotIs(st, sha, b, t, Client(st, sha, clientIncoming, clientWrites));
    ClientCount(st, sha, if b < st.Turns() then b else st.Turns(), d, u);
  }

  // ------------------------------------------------------------------ any schedule

  /** Two ends, and what the streams below take of what each writes. */
  datatype Ends = Ends(st: Setting, clientWrites: seq<WritePoll>, serverWrites: seq<WritePoll>) {
    ghost predicate Ready(sha: Hash) {
      && st.Ready(sha) && st.Answered()
      && Willing(clientWrites, st.ClientNeeds(sha)) && Willing(serverWrites, st.ServerNeeds(sha))
    }
  }

  /** What has been brought to either end, and what the signature library accepts by now. */
  datatype Brought = Brought(client: seq<ReadPoll>, server: seq<ReadPoll>, table: Table)

  /** What the channels bring next, to one of the ends. */
  datatype Delivery = ToClient(polls: seq<ReadPoll>, table: Table) | ToServer(polls: seq<ReadPoll>, table: Table)

  function After(b: Brought, d: Delivery): Brought {
    match d
    case ToClient(polls, table) => Brought(b.client + polls, b.server, table)
    case ToServer(polls, table) => Brought(b.client, b.server + polls, table)
  }

  function AfterAll(b: Brought, ds: seq<Delivery>): Brought
    decreases |ds|
  {
    if ds == [] then b else AfterAll(After(b, ds[0]), ds[1..])
  }

  function ClientBy(e: Ends, sha: Hash, b: Brought): ClientRun {
    Client(AsOf(e.st, b.table), sha, b.client, e.clientWrites)
  }

  function ServerBy(e: Ends, sha: Hash, b: Brought): ServerRun {
    Server(AsOf(e.st, b.table), sha, b.server, e.serverWrites)
  }

  /** The library accepts the client's signature once all of the client's frames have come,
      and the server's once the server has accepted. */
  ghost predicate InTime(e: Ends, sha: Hash, b: Brought)
    requires e.st.Answered()
  {
    && (Data(b.server) == e.st.ClientSends(0, e.st.Turns(), sha) ==> AsOf(e.st, b.table).ClientMade(sha))
    && (ServerBy(e, sha, b).standing.Stands? ==> AsOf(e.st, b.table).ServerMade(sha))
  }

  /** The channels bring to an end no more than the other has sent by then, in order. */
  ghost predicate Honest(e: Ends, sha: Hash, b: Brought, d: Delivery)
    requires e.st.Answered()
  {
    && NoEnd(d.polls) && InTime(e, sha, After(b, d))
    && (d.ToClient? ==> Data(b.client + d.polls) <= ServerBy(e, sha, b).sent)
    && (d.ToServer? ==> Data(b.server + d.polls) <= ClientBy(e, sha, b).sent)
  }

  ghost predicate Delivers(e: Ends, sha: Hash, b: Brought, ds: seq<Delivery>)
    requires e.st.Answered()
    decreases |ds|
  {
    ds == [] || (Honest(e, sha, b, ds[0]) && Delivers(e, sha, After(b, ds[0]), ds[1..]))
  }

  /** Only bytes that are to be sent have been brought. */
  ghost predicate Meant(e: Ends, sha: Hash, b: Brought)
    requires e.st.Answered()
  {
    && NoEnd(b.client) && NoEnd(b.server) && InTime(e, sha, b)
    && Data(b.client) <= e.st.ServerSends(0, e.st.Turns() + 1, sha)
    && Data(b.server) <= e.st.ClientSends(0, e.st.Turns(), sha)
  }

  /** And they have been sent. */
  ghost predicate InOrder(e: Ends, sha: Hash, b: Brought)
    requires e.st.Answered()
  {
    && Meant(e, sha, b)
    && Data(b.client) <= ServerBy(e, sha, b).sent && Data(b.server) <= ClientBy(e, sha, b).sent
  }

  lemma MeantIs(e: Ends, sha: Hash, b: Brought)
    requires e.st.Answered() && Meant(e, sha, b)
    ensures NoEnd(b.client) && NoEnd(b.server)
    ensures Data(b.client) <= e.st.ServerSends(0, e.st.Turns() + 1, sha)
    ensures Data(b.server) <= e.st.ClientSends(0, e.st.Turns(), sha)
    ensures AsOf(e.st, b.table).Answered()
    ensures Data(b.server) == e.st.ClientSends(0, e.st.Turns(), sha) ==> AsOf(e.st, b.table).ClientMade(sha)
    ensures ServerBy(e, sha, b).standing.Stands? ==> AsOf(e.st, b.table).ServerMade(sha)
  {
    hide NoEnd, Data, ServerBy, Setting.ClientSends, Setting.ServerSends, Setting.ClientMade, Setting.ServerMade;
  }

  lemma EndsReady(e: Ends, sha: Hash, b: Brought)
    requires e.Ready(sha)
    ensures e.st.Answered() && e.st.Ready(sha)
    ensures var now := AsOf(e.st, b.table);
            && now.Answered() && now.Ready(sha) && now.Turns() == e.st.Turns()
            && Willing(e.clientWrites, now.ClientNeeds(sha)) && Willing(e.serverWrites, now.ServerNeeds(sha))
            && Completed(now, sha) == Completed(e.st, sha) && Accepted(now, sha) == Accepted(e.st, sha)
    ensures ClientBy(e, sha, b) == Client(AsOf(e.st, b.table), sha, b.client, e.clientWrites)
    ensures ServerBy(e, sha, b) == Server(AsOf(e.st, b.table), sha, b.server, e.serverWrites)
  {
    hide Setting.Ready, Client, Server, Willing, Setting.ClientNeeds, Setting.ServerNeeds, Completed, Accepted;
    SettingAsOf(e.st, b.table, sha);
  }

  /** Where the server stands, by what has been brought to it. */
  lemma ServerStands(e: Ends, sha: Hash, b: Brought) returns (d: nat, tail: bytes)
    requires e.Ready(sha) && e.st.Answered() && Meant(e, sha, b)
    ensures d <= e.st.Turns() && Data(b.server) == e.st.ClientSends(0, d, sha) + tail
    ensures d < e.st.Turns() ==> IsPart(tail, Hdlc.Encoded(e.st.ClientWire(d, sha)))
    ensures d == e.st.Turns() ==> tail == []
    ensures ServerBy(e, sha, b).sent == e.st.ServerSends(0, d + 1, sha)
    ensures ServerBy(e, sha, b).standing == (if d == e.st.Turns() then Stands(Accepted(e.st, sha)) else Waiting)
  {
    hide *;
    MeantIs(e, sha, b);
    EndsReady(e, sha, b);
    var now := AsOf(e.st, b.table);
    d, tail := ClientPrefix(e.st, sha, 0, Data(b.server));
    assert e.st.ClientSends(0, d, sha) + [] == e.st.ClientSends(0, d, sha);
    SendsAsOf(e.st, b.table, sha, 0, d);
    SendsAsOf(e.st, b.table, sha, 0, d + 1);
    WiresAsOf(e.st, b.table, sha, d);
    ServerProgress(now, sha, d, b.server, e.serverWrites, tail);
  }

  /** And the client. */
  lemma ClientStandsBy(e: Ends, sha: Hash, b: Brought) returns (n: nat, tail: bytes)
    requires e.Ready(sha) && e.st.Answered() && Meant(e, sha, b)
    requires AsOf(e.st, b.table).Answered()
    requires Data(b.client) == e.st.ServerSends(0, e.st.Turns() + 1, sha) ==> AsOf(e.st, b.table).ServerMade(sha)
    ensures n <= e.st.Turns() + 1 && Data(b.client) == e.st.ServerSends(0, n, sha) + tail
    ensures n <= e.st.Turns() ==> IsPart(tail, Hdlc.Encoded(e.st.ServerWire(n, sha)))
    ensures n > e.st.Turns() ==> tail == []
    ensures ClientBy(e, sha, b).sent == e.st.ClientSends(0, Least(n, e.st.Turns()), sha)
    ensures ClientBy(e, sha, b).standing == (if n > e.st.Turns() then Stands(Completed(e.st, sha)) else Waiting)
  {
    hide *;
    MeantIs(e, sha, b);
    EndsReady(e, sha, b);
    var now := AsOf(e.st, b.table);
    n, tail := ServerPrefix(e.st, sha, 0, Data(b.client));
    assert e.st.ServerSends(0, n, sha) + [] == e.st.ServerSends(0, n, sha);
    LeastIs(n, e.st.Turns());
    SendsAsOf(e.st, b.table, sha, 0, n);
    SendsAsOf(e.st, b.table, sha, 0, Least(n, e.st.Turns()));
    WiresAsOf(e.st, b.table, sha, n);
    ClientProgress(now, sha, n, b.client, e.clientWrites, tail);
    ClientGotIs(now, sha, n, tail, ClientBy(e, sha, b));
  }

  lemma {:induction false} SendsAreNested(st: Setting, sha: Hash, a: nat, b: nat, c: nat)
    requires st.Answered() && a <= b <= c
    ensures st.ServerSends(a, b, sha) <= st.ServerSends(a, c, sha)
    ensures st.ClientSends(a, b, sha) <= st.ClientSends(a, c, sha)
    decreases b - a
  {
    hide *;
    SendsUnfold(st, sha, a, b);
    SendsUnfold(st, sha, a, c);
    if a < b {
      SendsAreNested(st, sha, a + 1, b, c);
    }
  }

  lemma PartIsShort(part: bytes, f: bytes)
    requires IsPart(part, f)
    ensures |part| < |f|
  {
  }

  /** With no fewer bytes there are no fewer frames. */
  lemma ClientFramesGrow(st: Setting, sha: Hash, x: nat, y: nat, xs: bytes, ys: bytes)
    requires st.Answered() && |st.ClientSends(0, x, sha) + xs| <= |st.ClientSends(0, y, sha) + ys|
    requires IsPart(ys, Hdlc.Encoded(st.ClientWire(y, sha)))
    ensures x <= y
  {
    hide *;
    PartIsShort(ys, Hdlc.Encoded(st.ClientWire(y, sha)));
    if y < x {
      SendsGrow(st, sha, 0, y, x);
    }
  }

  lemma ServerFramesGrow(st: Setting, sha: Hash, x: nat, y: nat, xs: bytes, ys: bytes)
    requires st.Answered() && |st.ServerSends(0, x, sha) + xs| <= |st.ServerSends(0, y, sha) + ys|
    requires IsPart(ys, Hdlc.Encoded(st.ServerWire(y, sha)))
    ensures x <= y
  {
    hide *;
    PartIsShort(ys, Hdlc.Encoded(st.ServerWire(y, sha)));
    if y < x {
      SendsGrow(st, sha, 0, y, x);
    }
  }

  /** With more brought, and whatever else the library accepts, the server has sent the same
      and perhaps more; and once all its frames are out the library accepts its signature. */
  lemma ServerGrows(e: Ends, sha: Hash, b: Brought, next: Brought)
    requires e.Ready(sha) && e.st.Answered() && Meant(e, sha, b) && Meant(e, sha, next)
    requires Data(b.server) <= Data(next.server)
    ensures ServerBy(e, sha, b).sent <= ServerBy(e, sha, next).sent <= e.st.ServerSends(0, e.st.Turns() + 1, sha)
    ensures AsOf(e.st, next.table).Answered()
    ensures ServerBy(e, sha, b).sent == e.st.ServerSends(0, e.st.Turns() + 1, sha) ==>
              AsOf(e.st, next.table).ServerMade(sha)
  {
    hide *;
    MeantIs(e, sha, next);
    var st := e.st;
    var d, u := ServerStands(e, sha, b);
    var d', u' := ServerStands(e, sha, next);
    if d' < st.Turns() {
      ClientFramesGrow(st, sha, d, d', u, u');
    }
    SendsAreNested(st, sha, 0, d + 1, d' + 1);
    SendsAreNested(st, sha, 0, d' + 1, st.Turns() + 1);
    if d < st.Turns() {
      NothingIsPart(st, sha, d);
      PartIsShort([], Hdlc.Encoded(st.ServerWire(d + 1, sha)));
      SendsGrow(st, sha, 0, d + 1, st.Turns() + 1);
    }
  }

  lemma ClientGrows(e: Ends, sha: Hash, b: Brought, next: Brought)
    requires e.Ready(sha) && e.st.Answered() && Meant(e, sha, b) && Meant(e, sha, next)
    requires Data(b.client) <= Data(next.client) && Completes(e, sha, b) && Completes(e, sha, next)
    ensures ClientBy(e, sha, b).sent <= ClientBy(e, sha, next).sent <= e.st.ClientSends(0, e.st.Turns(), sha)
  {
    hide *;
    CompletesIs(e, sha, b);
    CompletesIs(e, sha, next);
    var st := e.st;
    var n, t := ClientStandsBy(e, sha, b);
    var n', t' := ClientStandsBy(e, sha, next);
    if n' <= st.Turns() {
      ServerFramesGrow(st, sha, n, n', t, t');
    }
    LeastIs(n, st.Turns());
    LeastIs(n', st.Turns());
    SendsAreNested(st, sha, 0, Least(n, st.Turns()), Least(n', st.Turns()));
    SendsAreNested(st, sha, 0, Least(n', st.Turns()), st.Turns());
  }

  /** The library accepts the server's signature by the time all of the server's frames have
      come to the client. */
  ghost predicate Completes(e: Ends, sha: Hash, b: Brought)
    requires e.st.Answered()
  {
    Data(b.client) == e.st.ServerSends(0, e.st.Turns() + 1, sha) ==> AsOf(e.st, b.table).ServerMade(sha)
  }

  lemma CompletesIs(e: Ends, sha: Hash, b: Brought)
    requires e.st.Answered()
    ensures AsOf(e.st, b.table).Answered()
    ensures Completes(e, sha, b) <==>
            (Data(b.client) == e.st.ServerSends(0, e.st.Turns() + 1, sha) ==> AsOf(e.st, b.table).ServerMade(sha))
  {
    hide Data, Setting.ServerSends, Setting.ServerMade;
  }

  /** The client is brought no more than the server has sent. */
  lemma CompletesInTime(e: Ends, sha: Hash, b: Brought, next: Brought)
    requires e.Ready(sha) && e.st.Answered() && Meant(e, sha, b) && Meant(e, sha, next)
    requires Data(b.server) <= Data(next.server) && Data(next.client) <= ServerBy(e, sha, b).sent
    ensures Completes(e, sha, next)
  {
    hide *;
    ServerGrows(e, sha, b, next);
    CompletesIs(e, sha, next);
    var all := e.st.ServerSends(0, e.st.Turns() + 1, sha);
    if Data(next.client) == all {
      PrefixOfPrefix(ServerBy(e, sha, b).sent, ServerBy(e, sha, next).sent, all);
    }
  }

  lemma PrefixOfPrefix(x: bytes, y: bytes, z: bytes)
    requires x <= y <= z
    ensures x <= z
  {
  }

  lemma InOrderIs(e: Ends, sha: Hash, b: Brought)
    requires e.st.Answered()
    ensures InOrder(e, sha, b) <==>
            Meant(e, sha, b) && Data(b.client) <= ServerBy(e, sha, b).sent && Data(b.server) <= ClientBy(e, sha, b).sent
  {
    hide Meant, Data, ServerBy, ClientBy;
  }

  /** What a delivery brings is meant, as what was sent before it is. */
  lemma DeliveryIsMeant(e: Ends, sha: Hash, b: Brought, d: Delivery)
    requires e.st.Answered() && Meant(e, sha, b) && Honest(e, sha, b, d)
    requires ServerBy(e, sha, b).sent <= e.st.ServerSends(0, e.st.Turns() + 1, sha)
    requires ClientBy(e, sha, b).sent <= e.st.ClientSends(0, e.st.Turns(), sha)
    ensures Meant(e, sha, After(b, d))
    ensures d.ToClient? ==>
              After(b, d).server == b.server && Data(After(b, d).client) <= ServerBy(e, sha, b).sent
    ensures d.ToServer? ==>
              After(b, d).client == b.client && Data(After(b, d).server) <= ClientBy(e, sha, b).sent
    ensures Data(b.client) <= Data(After(b, d).client) && Data(b.server) <= Data(After(b, d).server)
  {
    hide NoEnd, Data, ServerBy, ClientBy, InTime, Setting.ServerSends, Setting.ClientSends, Setting.Answered;
    StaysNoEnd(b, d);
    DataGrows(b, d);
  }

  lemma StaysNoEnd(b: Brought, d: Delivery)
    requires NoEnd(b.client) && NoEnd(b.server) && NoEnd(d.polls)
    ensures NoEnd(After(b, d).client) && NoEnd(After(b, d).server)
  {
  }

  lemma DataGrows(b: Brought, d: Delivery)
    ensures Data(b.client) <= Data(After(b, d).client) && Data(b.server) <= Data(After(b, d).server)
  {
    hide Data;
    DataAppend(b.client, d.polls);
    DataAppend(b.server, d.polls);
  }

  lemma DeliveryKeepsOrder(e: Ends, sha: Hash, b: Brought, d: Delivery)
    requires e.Ready(sha) && e.st.Answered() && InOrder(e, sha, b) && Honest(e, sha, b, d)
    ensures InOrder(e, sha, After(b, d))
  {
    hide *;
    var next := After(b, d);
    InOrderIs(e, sha, b);
    InOrderIs(e, sha, next);
    CompletesInTime(e, sha, b, b);
    ServerGrows(e, sha, b, b);
    ClientGrows(e, sha, b, b);
    DeliveryIsMeant(e, sha, b, d);
    CompletesInTime(e, sha, b, next);
    ServerGrows(e, sha, b, next);
    ClientGrows(e, sha, b, next);
    PrefixOfPrefix(Data(next.client), ServerBy(e, sha, b).sent, ServerBy(e, sha, next).sent);
    PrefixOfPrefix(Data(next.server), ClientBy(e, sha, b).sent, ClientBy(e, sha, next).sent);
  }

  lemma {:induction false} DeliveriesKeepOrder(e: Ends, sha: Hash, b: Brought, ds: seq<Delivery>)
    requires e.Ready(sha) && e.st.Answered() && InOrder(e, sha, b) && Delivers(e, sha, b, ds)
    ensures InOrder(e, sha, AfterAll(b, ds))
    decreases |ds|
  {
    hide Ends.Ready, Setting.Answered, Honest, InOrder;
    if ds != [] {
      DeliveryKeepsOrder(e, sha, b, ds[0]);
      DeliveriesKeepOrder(e, sha, After(b, ds[0]), ds[1..]);
    }
  }

  lemma NothingBrought(e: Ends, sha: Hash, table: Table)
    requires e.Ready(sha) && e.st.Answered()
    ensures InOrder(e, sha, Brought([], [], table))
  {
    hide *;
    var st, b := e.st, Brought([], [], table);
    NoData();
    EndsReady(e, sha, b);
    NothingIsPart(st, sha, 0);
    PartIsShort([], Hdlc.Encoded(st.ClientWire(0, sha)));
    TurnsArePositive(st);
    SendsGrow(st, sha, 0, 0, st.Turns());
    NothingIsPart(AsOf(st, table), sha, 0);
    SendsUnfold(AsOf(st, table), sha, 0, 0);
    assert AsOf(st, table).ClientSends(0, 0, sha) + [] == [];
    ServerProgress(AsOf(st, table), sha, 0, [], e.serverWrites, []);
    IsMeant(e, sha, b);
    InOrderIs(e, sha, b);
  }

  lemma NoData()
    ensures Data([]) == [] && NoEnd([])
  {
  }

  lemma TurnsArePositive(st: Setting)
    ensures st.Turns() > 0
  {
  }

  lemma IsMeant(e: Ends, sha: Hash, b: Brought)
    requires e.st.Answered() && NoEnd(b.client) && NoEnd(b.server)
    requires Data(b.client) <= e.st.ServerSends(0, e.st.Turns() + 1, sha)
    requires Data(b.server) <= e.st.ClientSends(0, e.st.Turns(), sha)
    requires Data(b.server) != e.st.ClientSends(0, e.st.Turns(), sha) && ServerBy(e, sha, b).standing.Waiting?
    ensures Meant(e, sha, b)
  {
    hide NoEnd, Data, ServerBy, Setting.ClientSends, Setting.ServerSends;
  }

  /** Whatever the schedule: from empty channels, bytes are brought to either end in any
      portions and any order, but no sooner than they are sent, and what the library accepts
      changes as it may, each signature being accepted in time. At every point either both
      ends are done or one of them has sent something that is still to be brought. */
  lemma NoScheduleDeadlocks(e: Ends, sha: Hash, table: Table, ds: seq<Delivery>)
    requires e.Ready(sha) && e.st.Answered() && Delivers(e, sha, Brought([], [], table), ds)
    ensures var b := AfterAll(Brought([], [], table), ds);
            var c, s := ClientBy(e, sha, b), ServerBy(e, sha, b);
            || (c.standing == Stands(Completed(e.st, sha)) && s.standing == Stands(Accepted(e.st, sha)))
            || Data(b.client) < s.sent || Data(b.server) < c.sent
  {
    hide *;
    NothingBrought(e, sha, table);
    DeliveriesKeepOrder(e, sha, Brought([], [], table), ds);
    var b := AfterAll(Brought([], [], table), ds);
    InOrderIs(e, sha, b);
    MeantIs(e, sha, b);
    EndsReady(e, sha, b);
    SendsAsOf(e.st, b.table, sha, 0, e.st.Turns());
    SendsAsOf(e.st, b.table, sha, 0, e.st.Turns() + 1);
    if Data(b.client) == ServerBy(e, sha, b).sent && Data(b.server) == ClientBy(e, sha, b).sent {
      NoDeadlock(AsOf(e.st, b.table), sha, b.client, e.clientWrites, b.server, e.serverWrites);
    }
  }

  // ----------------------------------------------------------------- the first payloads

  /** Payload frames sent right behind ServerComplete are read in full: the client's payload
      stream starts on what its handshake left, and `ops` bring the rest. */
  lemma FirstPayloadsArrive(st: Setting, sha: Hash, incoming: seq<ReadPoll>, writes: seq<WritePoll>, early: bytes,
      ops: seq<Op>, log: seq<Signing>)
    requires st.Agreed(sha) && st.Answered() && NoEnd(incoming)
    requires Data(incoming) == st.ServerSends(0, st.Turns() + 1, sha) + early && Willing(writes, st.ClientNeeds(sha))
    requires early + Arrived(ops) == Framed(log) && Fitting(log) == |log|
    requires var left := Client(st, sha, incoming, writes).incoming;
             var start := Start(Fresh(st.serverAnswers.packetKey.value, st.clientAnswers.now));
             FairRun(start, [Arrive(left)] + ops, log, []) && Steps(start, [Arrive(left)] + ops).incoming == []
    ensures var left := Client(st, sha, incoming, writes).incoming;
            var e := Steps(Start(Fresh(st.serverAnswers.packetKey.value, st.clientAnswers.now)), [Arrive(left)] + ops);
            e.delivered + e.transport.Unread() == Flatten(Payloads(log)) && !e.over
  {
    hide *;
    AgreedIsReady(st, sha);
    ClientProgress(st, sha, st.Turns() + 1, incoming, writes, early);
    ClientGotIs(st, sha, st.Turns() + 1, early, Client(st, sha, incoming, writes));
    var left := Client(st, sha, incoming, writes).incoming;
    ArrivedFirst(left, ops);
    KeysAreThere(st);
    EverythingThatFitsArrives(st.serverAnswers.packetKey.value, st.clientAnswers.now, [Arrive(left)] + ops, log);
    assert Payloads(log)[..|log|] == Payloads(log);
  }

  lemma KeysAreThere(st: Setting)
    requires st.Answered()
    ensures st.serverAnswers.packetKey.Some? && st.clientAnswers.packetKey.Some?
  {
  }

  lemma ArrivedFirst(polls: seq<ReadPoll>, ops: seq<Op>)
    ensures Arrived([Arrive(polls)] + ops) == Data(polls) + Arrived(ops)
  {
    assert ([Arrive(polls)] + ops)[1..] == ops;
  }
}
