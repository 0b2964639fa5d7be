/** The handshake procedures and the sessions of the world are the same machine: a run over
    a byte stream comes to the phase that its frames, coming in one by one, lead to. So
    agreement is a fact about the procedures. */
module FrameByFrame {
  import opened Agreement
  import opened Bytes
  import opened Wrappers
  import opened FrameReader
  import opened Handshake
  import opened HandshakeProgram
  import opened Signatures
  import opened World
  import opened WorldSteps
  import Hdlc

  /** A frame, what the signature library accepts as it is handled, and what the libraries
      answer. */
  datatype Reading = Reading(frame: bytes, table: Table, a: Answers)

  // ------------------------------------------------------------------------- the client

  function ClientFold(cfg: ClientConfig, sha: Hash, phase: ClientPhase, readings: seq<Reading>): ClientPhase
    decreases |readings|
  {
    if readings == [] || !phase.Wants() then phase
    else
      var r := readings[0];
      ClientFold(cfg, sha, ClientStep(cfg, sha, phase, r.frame, r.table, r.a).phase, readings[1..])
  }

  /** The frames that a client reads off its stream. */
  function ClientReadings(cfg: ClientConfig, sha: Hash, phase: ClientPhase, incoming: seq<ReadPoll>, tables: Tables,
      a: Answers): seq<Reading>
    decreases |incoming|
  {
    if !phase.Wants() then []
    else
      var step := Await(IDLE, incoming);
      AwaitConsumes(IDLE, incoming);
      if !step.outcome.Frame? then []
      else
        var table := tables(|step.rest|);
        [Reading(step.outcome.frame, table, a)] +
        ClientReadings(cfg, sha, ClientStep(cfg, sha, phase, step.outcome.frame, table, a).phase, step.rest, tables, a)
  }

  lemma {:induction false} ClientRunIsFold(cfg: ClientConfig, sha: Hash, phase: ClientPhase, incoming: seq<ReadPoll>,
      writes: seq<WritePoll>, tables: Tables, a: Answers)
    ensures var run := RunClient(cfg, sha, phase, incoming, writes, tables, a);
            run.standing.Stands? && !run.standing.phase.ClientRefused? ==>
              run.standing.phase == ClientFold(cfg, sha, phase, ClientReadings(cfg, sha, phase, incoming, tables, a))
    decreases |incoming|
  {
    hide RunClient, ContinueClient, ClientStep, Await, SendFrame, Hdlc.Encoded;
    if !phase.Wants() {
      ClientStands(cfg, sha, phase, incoming, writes, tables, a);
    } else {
      RunClientOnce(cfg, sha, phase, incoming, writes, tables, a);
      AwaitConsumes(IDLE, incoming);
      var step := Await(IDLE, incoming);
      if step.outcome.Frame? {
        var reaction := ClientStep(cfg, sha, phase, step.outcome.frame, tables(|step.rest|), a);
        var readings := ClientReadings(cfg, sha, phase, incoming, tables, a);
        assert readings[1..] == ClientReadings(cfg, sha, reaction.phase, step.rest, tables, a);
        if reaction.reply.None? {
          ContinuesSilently(cfg, sha, reaction, step.rest, writes, tables, a);
          ClientRunIsFold(cfg, sha, reaction.phase, step.rest, writes, tables, a);
        } else {
          ContinueClientOnce(cfg, sha, reaction, step.rest, writes, tables, a);
          var left := SendFrame(Hdlc.Encoded(reaction.reply.value), writes).rest;
          ClientRunIsFold(cfg, sha, reaction.phase, step.rest, left, tables, a);
        }
      }
    }
  }

  // ------------------------------------------------------------------------- the server

  function ServerFold(cfg: ServerConfig, phase: ServerPhase, readings: seq<Reading>): ServerPhase
    decreases |readings|
  {
    if readings == [] || !phase.WantClient? then phase
    else
      var r := readings[0];
      ServerFold(cfg, ServerStep(cfg, phase, r.frame, r.table, r.a).phase, readings[1..])
  }

  function ServerReadings(cfg: ServerConfig, phase: ServerPhase, incoming: seq<ReadPoll>, tables: Tables,
      a: Answers): seq<Reading>
    decreases |incoming|
  {
    if !phase.WantClient? then []
    else
      var step := Await(IDLE, incoming);
      AwaitConsumes(IDLE, incoming);
      if !step.outcome.Frame? then []
      else
        var table := tables(|step.rest|);
        [Reading(step.outcome.frame, table, a)] +
        ServerReadings(cfg, ServerStep(cfg, phase, step.outcome.frame, table, a).phase, step.rest, tables, a)
  }

  lemma {:induction false} ServerRunIsFold(cfg: ServerConfig, phase: ServerPhase, incoming: seq<ReadPoll>,
      writes: seq<WritePoll>, tables: Tables, a: Answers)
    ensures var run := RunServer(cfg, phase, incoming, writes, tables, a);
            run.standing.Stands? && !run.standing.phase.ServerRefused? ==>
              run.standing.phase == ServerFold(cfg, phase, ServerReadings(cfg, phase, incoming, tables, a))
    decreases |incoming|
  {
    hide RunServer, ContinueServer, ServerStep, Await, SendFrame, Hdlc.Encoded;
    if !phase.WantClient? {
      DoneServer(cfg, phase, incoming, writes, tables, a);
    } else {
      RunServerOnce(cfg, phase, incoming, writes, tables, a);
      AwaitConsumes(IDLE, incoming);
      var step := Await(IDLE, incoming);
      if step.outcome.Frame? {
        var table := tables(|step.rest|);
        var reaction := ServerStep(cfg, phase, step.outcome.frame, table, a);
        var readings := ServerReadings(cfg, phase, incoming, tables, a);
        assert readings[1..] == ServerReadings(cfg, reaction.phase, step.rest, tables, a);
        ServerStepReplies(cfg, phase, step.outcome.frame, table, a);
        if reaction.reply.None? {
          RefusedServer(cfg, step.rest, writes, tables, a);
        } else {
          ContinueServerOnce(cfg, reaction, step.rest, writes, tables, a);
          var left := SendFrame(Hdlc.Encoded(reaction.reply.value), writes).rest;
          ServerRunIsFold(cfg, reaction.phase, step.rest, left, tables, a);
        }
      }
    }
  }

  // -------------------------------------------------------------------------- the world

  /** The frames that come in at session `i` during a run, in order, are `readings`. */
  ghost predicate Takes(w: World, sha: Hash, events: seq<Event>, end: World, i: nat, readings: seq<Reading>)
    decreases |events|
  {
    if events == [] then end == w && readings == []
    else
      && Enabled(w, events[0])
      && if events[0].FrameIn? && events[0].i == i then
           && readings != [] && readings[0] == Reading(events[0].frame, w.table, events[0].a)
           && Takes(Do(w, sha, events[0]), sha, events[1..], end, i, readings[1..])
         else
           Takes(Do(w, sha, events[0]), sha, events[1..], end, i, readings)
  }

  lemma {:induction false} TakesRuns(w: World, sha: Hash, events: seq<Event>, end: World, i: nat,
      readings: seq<Reading>)
    requires Takes(w, sha, events, end, i, readings)
    ensures Runs(w, sha, events, end) && end.honest == w.honest
    decreases |events|
  {
    hide Enabled, Do;
    if events != [] {
      var ev := events[0];
      DoKeepsHonest(w, sha, ev);
      TakesRuns(Do(w, sha, ev), sha, events[1..], end, i, if ev.FrameIn? && ev.i == i then readings[1..] else readings);
    }
  }

  lemma DoKeepsHonest(w: World, sha: Hash, ev: Event)
    requires Enabled(w, ev)
    ensures Do(w, sha, ev).honest == w.honest
  {
    hide FrameMove, UseMove;
  }

  /** How an event changes the side of a session. */
  lemma SideMoves(w: World, sha: Hash, ev: Event, i: nat)
    requires Enabled(w, ev) && i < |w.sessions|
    ensures i < |Do(w, sha, ev).sessions|
    ensures !(ev.FrameIn? && ev.i == i) ==> Do(w, sha, ev).sessions[i].side == w.sessions[i].side
    ensures ev.FrameIn? && ev.i == i ==>
              && w.sessions[i].Wants()
              && match w.sessions[i].side {
                   case ClientSide(cfg, phase) =>
                     Do(w, sha, ev).sessions[i].side ==
                         ClientSide(cfg, ClientStep(cfg, sha, phase, ev.frame, w.table, ev.a).phase)
                   case ServerSide(cfg, hello, phase) =>
                     Do(w, sha, ev).sessions[i].side ==
                         ServerSide(cfg, hello, ServerStep(cfg, phase, ev.frame, w.table, ev.a).phase)
                 }
  {
    hide ClientStep, ServerStep, Made, FreshKey, FreshUnique, NoPacketKey, WasSigned, Guarded, SignsWell;
  }

  lemma {:induction false} ClientSideFolds(w: World, sha: Hash, events: seq<Event>, end: World, i: nat,
      readings: seq<Reading>)
    requires Takes(w, sha, events, end, i, readings) && i < |w.sessions| && w.sessions[i].side.ClientSide?
    ensures i < |end.sessions|
    ensures var cfg, phase := w.sessions[i].side.client, w.sessions[i].side.clientPhase;
            end.sessions[i].side == ClientSide(cfg, ClientFold(cfg, sha, phase, readings))
    decreases |events|
  {
    hide Enabled, Do, ClientStep;
    if events != [] {
      var ev := events[0];
      SideMoves(w, sha, ev, i);
      ClientSideFolds(Do(w, sha, ev), sha, events[1..], end, i,
                      if ev.FrameIn? && ev.i == i then readings[1..] else readings);
    }
  }

  lemma {:induction false} ServerSideFolds(w: World, sha: Hash, events: seq<Event>, end: World, i: nat,
      readings: seq<Reading>)
    requires Takes(w, sha, events, end, i, readings) && i < |w.sessions| && w.sessions[i].side.ServerSide?
    ensures i < |end.sessions|
    ensures var cfg, phase := w.sessions[i].side.server, w.sessions[i].side.serverPhase;
            end.sessions[i].side == ServerSide(cfg, w.sessions[i].side.hello, ServerFold(cfg, phase, readings))
    decreases |events|
  {
    hide Enabled, Do, ServerStep;
    if events != [] {
      var ev := events[0];
      SideMoves(w, sha, ev, i);
      ServerSideFolds(Do(w, sha, ev), sha, events[1..], end, i,
                      if ev.FrameIn? && ev.i == i then readings[1..] else readings);
    }
  }

  /** A run of the client procedure that completes, in a world in which the frames it reads
      are those that come in at its session: the session stands where the procedure does,
      and if the procedure completed under a trusted key, it has a partner. */
  lemma ClientProcedureAgrees(w: World, before: seq<Event>, sha: Hash, events: seq<Event>, end: World, i: nat,
      cfg: ClientConfig, incoming: seq<ReadPoll>, writes: seq<WritePoll>, tables: Tables, a: Answers)
    requires Reachable(w, sha, before) && i < |w.sessions| && w.sessions[i].side == ClientSide(cfg, WantHello)
    requires Takes(w, sha, events, end, i, ClientReadings(cfg, sha, WantHello, incoming, tables, a))
    requires var run := RunClient(cfg, sha, WantHello, incoming, writes, tables, a);
             run.standing.Stands? && run.standing.phase.ClientDone?
    ensures Reachable(end, sha, before + events) && i < |end.sessions|
    ensures var phase := RunClient(cfg, sha, WantHello, incoming, writes, tables, a).standing.phase;
            && end.sessions[i].side == ClientSide(cfg, phase) && ClientEstablished(end.sessions[i])
            && (Trusted(phase.bundle, cfg.sign.insecure, end.honest) ==> exists j: nat :: IsPartner(end, i, j))
  {
    hide RunClient, Runs, ClientReadings, ClientFold, Trusted, IsPartner, Takes;
    ClientRunIsFold(cfg, sha, WantHello, incoming, writes, tables, a);
    var readings := ClientReadings(cfg, sha, WantHello, incoming, tables, a);
    ClientSideFolds(w, sha, events, end, i, readings);
    TakesRuns(w, sha, events, end, i, readings);
    RunsAppend(World([], {}, w.honest), sha, before, w, events, end);
    var phase := RunClient(cfg, sha, WantHello, incoming, writes, tables, a).standing.phase;
    if Trusted(phase.bundle, cfg.sign.insecure, end.honest) {
      ClientHasPartner(end, sha, before + events, i);
    }
  }

  /** The same for the server procedure, once its ServerHello is out. */
  lemma ServerProcedureAgrees(w: World, before: seq<Event>, sha: Hash, events: seq<Event>, end: World, j: nat,
      cfg: ServerConfig, incoming: seq<ReadPoll>, writes: seq<WritePoll>, tables: Tables, a: Answers)
    requires Reachable(w, sha, before) && j < |w.sessions| && w.sessions[j].side.ServerSide?
    requires w.sessions[j].side == ServerSide(cfg, w.sessions[j].side.hello, WantClient(w.sessions[j].side.hello))
    requires var phase := WantClient(w.sessions[j].side.hello);
             Takes(w, sha, events, end, j, ServerReadings(cfg, phase, incoming, tables, a))
    requires var run := RunServer(cfg, WantClient(w.sessions[j].side.hello), incoming, writes, tables, a);
             run.standing.Stands? && run.standing.phase.ServerDone?
    ensures Reachable(end, sha, before + events) && j < |end.sessions|
    ensures var phase := RunServer(cfg, WantClient(w.sessions[j].side.hello), incoming, writes, tables,
        a).standing.phase;
            && end.sessions[j].side == ServerSide(cfg, w.sessions[j].side.hello, phase) &&
                 ServerEstablished(end.sessions[j])
            && (Trusted(phase.clientBundle, cfg.sign.insecure, end.honest) ==> exists i: nat :: IsAuthor(end, j, i))
  {
    hide RunServer, Runs, ServerReadings, ServerFold, Trusted, IsAuthor, Takes;
    var start := WantClient(w.sessions[j].side.hello);
    ServerRunIsFold(cfg, start, incoming, writes, tables, a);
    var readings := ServerReadings(cfg, start, incoming, tables, a);
    ServerSideFolds(w, sha, events, end, j, readings);
    TakesRuns(w, sha, events, end, j, readings);
    RunsAppend(World([], {}, w.honest), sha, before, w, events, end);
    var phase := RunServer(cfg, start, incoming, writes, tables, a).standing.phase;
    if Trusted(phase.clientBundle, cfg.sign.insecure, end.honest) {
      ServersAgree(end, sha, before + events, j);
    }
  }
}
