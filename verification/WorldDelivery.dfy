/** Delivery among the sessions of the world: two sessions whose connection runs over a
    faithful channel get all of each other's bytes, in any interleaving of writes and reads
    and whatever else goes on. */
module WorldDelivery {
  import opened Bytes
  import opened Wrappers
  import opened FaithfulStreams
  import opened FrameReader
  import opened FrameStreams
  import opened Handshake
  import opened Signatures
  import opened Transport
  import opened TransportRuns
  import opened World
  import opened WorldSteps

  /** Session `i` reads what session `j` writes. */
  ghost predicate Reads(w: World, i: nat, j: nat) {
    && i < |w.sessions| && j < |w.sessions| && i != j
    && w.sessions[i].endpoint.Some? && w.sessions[j].endpoint.Some?
    && w.sessions[j].packetKey == Some(w.sessions[i].endpoint.value.transport.verifier.publicKey)
  }

  /** The channel to `i`, which has brought `got` so far, brings no more than `j` has sent,
      in order, and neither fails nor ends; and no read of `i` finds it idle. */
  ghost predicate Faithful(w: World, ev: Event, i: nat, j: nat, got: bytes)
    requires Reads(w, i, j)
  {
    ev.Use? && ev.i == i ==>
      match ev.op {
        case Arrive(polls) => NoEnd(polls) && got + Data(polls) <= w.sessions[j].endpoint.value.sent
        case ReadOp(_, _, clock) => Timely(w.sessions[i].endpoint.value.transport.verifier, clock)
        case _ => true
      }
  }

  /** What an event brings to `i`. */
  function Brings(ev: Event, i: nat): bytes {
    if ev.Use? && ev.i == i && ev.op.Arrive? then Data(ev.op.polls) else []
  }

  function Brought(events: seq<Event>, i: nat): bytes {
    if events == [] then [] else Brings(events[0], i) + Brought(events[1..], i)
  }

  ghost predicate FaithfulRun(w: World, sha: Hash, events: seq<Event>, i: nat, j: nat, got: bytes)
    decreases |events|
  {
    events == [] ||
    (Enabled(w, events[0]) && Reads(w, i, j) && Faithful(w, events[0], i, j, got) &&
     FaithfulRun(Do(w, sha, events[0]), sha, events[1..], i, j, got + Brings(events[0], i)))
  }

  /** What has been sent but not brought, and what has been signed but not sent. */
  function ToCome(log: seq<Signing>, got: bytes): bytes
    requires |got| <= |Framed(log)|
  {
    Framed(log)[|got|..]
  }

  /** `i` stands in the stream of what `j` has signed by now, `got` of which has come. */
  ghost predicate Linked(w: World, i: nat, j: nat, got: bytes) {
    && Reads(w, i, j) && got <= w.sessions[j].endpoint.value.sent
    && got <= Framed(w.sessions[j].endpoint.value.log)
    && Following(w.sessions[i].endpoint.value, w.sessions[j].endpoint.value.log,
         ToCome(w.sessions[j].endpoint.value.log, got))
  }

  /** What an established session keeps. */
  lemma EstablishedStays(w: World, sha: Hash, ev: Event, i: nat)
    requires Inv(w, sha) && Enabled(w, ev) && i < |w.sessions| && w.sessions[i].endpoint.Some?
    ensures var next := Do(w, sha, ev);
            && |next.sessions| >= |w.sessions| && next.sessions[i].packetKey == w.sessions[i].packetKey
            && (ev.Use? ==> |next.sessions| == |w.sessions|)
            && next.sessions[i] == if ev.Use? && ev.i == i then UseMove(w.sessions[i], ev.op).session else w.sessions[i]
  {
    hide *;
    EstablishedAt(w, sha, i);
    EventKeeps(w, sha, ev, i);
  }

  /** A session that is done with frames changes by its own use only. */
  lemma EventKeeps(w: World, sha: Hash, ev: Event, i: nat)
    requires Enabled(w, ev) && i < |w.sessions| && !w.sessions[i].Wants()
    requires w.sessions[i].endpoint.Some? && w.sessions[i].packetKey.Some?
    requires w.sessions[i].endpoint.value.transport.Valid()
    ensures var next := Do(w, sha, ev);
            && |next.sessions| >= |w.sessions| && next.sessions[i].packetKey == w.sessions[i].packetKey
            && (ev.Use? ==> |next.sessions| == |w.sessions|)
            && next.sessions[i] == if ev.Use? && ev.i == i then UseMove(w.sessions[i], ev.op).session else w.sessions[i]
  {
    hide FrameMove, TransportRuns.Step, FreshKey, FreshUnique, NoPacketKey, Guarded, WasSigned, SignsWell;
  }

  lemma EstablishedAt(w: World, sha: Hash, i: nat)
    requires Inv(w, sha) && i < |w.sessions| && w.sessions[i].endpoint.Some?
    ensures var s := w.sessions[i];
            && !s.Wants() && s.packetKey.Some? && WriteSide(s.endpoint.value) && s.endpoint.value.transport.Valid()
            && Genuine(s.endpoint.value.log, s.packetKey.value, w.table)
  {
    hide SessionOk, KeysApart, ComponentsApart, Unforged, StreamsOk;
    EstablishedIsDone(w.sessions[i], w.table, sha);
    hide Genuine, Framed;
  }

  lemma EstablishedIsDone(s: Session, table: Table, sha: Hash)
    requires SessionOk(s, table, sha) && s.endpoint.Some?
    ensures !s.Wants() && s.packetKey.Some? && WriteSide(s.endpoint.value)
    ensures Genuine(s.endpoint.value.log, s.packetKey.value, table)
  {
    hide WriteSide, Genuine, ConnVerify.Endorsed, IsHelloWire;
  }

  /** A frame more to come. */
  lemma FollowingMore(e: Endpoint, log: seq<Signing>, toCome: bytes, s: Signing)
    requires Following(e, log, toCome)
    ensures Following(e, log + [s], toCome + WireOf(s))
  {
    hide WireOf, Data, Flatten, NoEnd;
    var c, more := e.transport.verifier.counter, log + [s];
    assert more[c..] == log[c..] + [s];
    FramedAppend(log[c..], [s]);
    FramedOne(s);
    assert Payloads(more)[..c] == Payloads(log)[..c];
    assert forall k :: 0 <= k < |log| ==> more[k] == log[k];
    if Expecting(e.transport.reader, e.incoming, log[c..], toCome) {
      var x := e.transport.reader.frame + Data(e.incoming);
      Associates(x, toCome, WireOf(s));
      WiresAreNonEmpty([s]);
      if log[c..] == [] {
        assert Framed(log[c..]) == [];
        assert |x + toCome| == 0;
      }
      assert Expecting(e.transport.reader, e.incoming, more[c..], toCome + WireOf(s));
    }
  }

  lemma SentIsSigned(e: Endpoint)
    requires WriteSide(e)
    ensures e.sent <= Framed(e.log)
  {
    hide Framed;
  }

  /** The writer's own step: what it has sent stays sent, and it signs at most one frame. */
  lemma WriterStep(e: Endpoint, op: Op, got: bytes)
    requires WriteSide(e) && got <= e.sent
    ensures var next := TransportRuns.Step(e, op);
            && got <= next.sent && got <= Framed(e.log) && got <= Framed(next.log)
            && (next.log == e.log ||
                (next.log == e.log + [next.log[|next.log| - 1]] &&
                 ToCome(next.log, got) == ToCome(e.log, got) + WireOf(next.log[|next.log| - 1])))
  {
    StepKeepsKey(e, op);
    StepKeepsWriteSide(e, op);
    SentGrows(e, op);
    var next := TransportRuns.Step(e, op);
    hide TransportRuns.Step, Framed;
    SentIsSigned(e);
    SentIsSigned(next);
    if next.log != e.log {
      var s := next.log[|next.log| - 1];
      FramedAppend(e.log, [s]);
      FramedOne(s);
      assert (Framed(e.log) + WireOf(s))[|got|..] == Framed(e.log)[|got|..] + WireOf(s);
    }
  }

  lemma SentGrows(e: Endpoint, op: Op)
    requires e.transport.Valid()
    ensures e.sent <= TransportRuns.Step(e, op).sent
  {
    hide Drain, ReadPayload, Queue;
  }

  lemma ReaderStep(w: World, sha: Hash, ev: Event, i: nat, j: nat, got: bytes)
    requires Inv(w, sha) && Linked(w, i, j, got) && Enabled(w, ev) && Faithful(w, ev, i, j, got)
    requires ev.Use? && ev.i == i
    ensures Linked(Do(w, sha, ev), i, j, got + Brings(ev, i))
  {
    hide *;
    LinkedReads(w, i, j, got);
    EstablishedStays(w, sha, ev, i);
    EstablishedStays(w, sha, ev, j);
    EstablishedAt(w, sha, i);
    EstablishedAt(w, sha, j);
    EnabledUse(w, ev);
    var log := w.sessions[j].endpoint.value.log;
    SentIsSigned(w.sessions[j].endpoint.value);
    GenuineIsSoFar(log, w.sessions[j].packetKey.value, w.table, ToCome(log, got));
    ReaderLinks(w, Do(w, sha, ev), i, j, got, ev);
  }

  lemma LinkedReads(w: World, i: nat, j: nat, got: bytes)
    requires Linked(w, i, j, got)
    ensures Reads(w, i, j) && i < |w.sessions| && j < |w.sessions| && i != j
    ensures w.sessions[i].endpoint.Some? && w.sessions[j].endpoint.Some? && w.sessions[j].packetKey.Some?
    ensures got <= w.sessions[j].endpoint.value.sent && |got| <= |Framed(w.sessions[j].endpoint.value.log)|
  {
    hide Following, Framed;
  }

  lemma EnabledUse(w: World, ev: Event)
    requires ev.Use? && Enabled(w, ev)
    ensures ev.i < |w.sessions| && w.sessions[ev.i].endpoint.Some? && w.sessions[ev.i].packetKey.Some?
    ensures w.sessions[ev.i].endpoint.value.transport.Valid()
    ensures ev.op.ReadOp? ==> ev.op.table == w.table
  {
  }

  lemma ReaderLinks(w: World, next: World, i: nat, j: nat, got: bytes, ev: Event)
    requires Linked(w, i, j, got) && Faithful(w, ev, i, j, got) && ev.Use? && ev.i == i
    requires |next.sessions| == |w.sessions| && next.sessions[j] == w.sessions[j]
    requires w.sessions[i].packetKey.Some? && w.sessions[i].endpoint.value.transport.Valid()
    requires next.sessions[i] == UseMove(w.sessions[i], ev.op).session
    requires var f := w.sessions[j].endpoint.value;
             && f.sent <= Framed(f.log)
             && (ev.op.ReadOp? ==>
                   GenuineSoFar(f.log, w.sessions[j].packetKey.value, ev.op.table, ToCome(f.log, got)))
    ensures Linked(next, i, j, got + Brings(ev, i))
  {
    hide TransportRuns.Step, GenuineSoFar, Following, Framed, Timely, NoEnd, Data;
    var e, log, op := w.sessions[i].endpoint.value, w.sessions[j].endpoint.value.log, ev.op;
    var after := got + Brings(ev, i);
    assert got + [] == got;
    TailSplits(Framed(log), got, Brings(ev, i));
    StepFollows(e, op, log, ToCome(log, after));
    StepKeepsKey(e, op);
  }

  lemma TailSplits(all: bytes, got: bytes, more: bytes)
    requires got + more <= all
    ensures all[|got|..] == more + all[|got + more|..]
  {
  }

  lemma OtherStep(w: World, sha: Hash, ev: Event, i: nat, j: nat, got: bytes)
    requires Inv(w, sha) && Linked(w, i, j, got) && Enabled(w, ev) && !(ev.Use? && ev.i == i)
    ensures Linked(Do(w, sha, ev), i, j, got)
  {
    hide *;
    LinkedReads(w, i, j, got);
    EstablishedStays(w, sha, ev, i);
    EstablishedStays(w, sha, ev, j);
    EstablishedAt(w, sha, j);
    var next := Do(w, sha, ev);
    if ev.Use? && ev.i == j {
      EnabledUse(w, ev);
      WriterStep(w.sessions[j].endpoint.value, ev.op, got);
      WriterLinks(w, next, i, j, got, ev.op);
    } else {
      BothStay(w, next, i, j, got);
    }
  }

  lemma BothStay(w: World, next: World, i: nat, j: nat, got: bytes)
    requires Linked(w, i, j, got) && |next.sessions| >= |w.sessions|
    requires next.sessions[i] == w.sessions[i] && next.sessions[j] == w.sessions[j]
    ensures Linked(next, i, j, got)
  {
    hide Following, Framed;
  }

  lemma WriterLinks(w: World, next: World, i: nat, j: nat, got: bytes, op: Op)
    requires Linked(w, i, j, got) && |next.sessions| == |w.sessions| && next.sessions[i] == w.sessions[i]
    requires w.sessions[j].packetKey.Some? && w.sessions[j].endpoint.value.transport.Valid()
    requires next.sessions[j] == UseMove(w.sessions[j], op).session
    requires var f, g := w.sessions[j].endpoint.value, TransportRuns.Step(w.sessions[j].endpoint.value, op);
             && got <= g.sent && got <= Framed(f.log) && got <= Framed(g.log)
             && (g.log == f.log ||
                 (g.log == f.log + [g.log[|g.log| - 1]] &&
                  ToCome(g.log, got) == ToCome(f.log, got) + WireOf(g.log[|g.log| - 1])))
    ensures Linked(next, i, j, got)
  {
    hide TransportRuns.Step, Following, Framed, WireOf;
    var e, f := w.sessions[i].endpoint.value, w.sessions[j].endpoint.value;
    var g := TransportRuns.Step(f, op);
    if g.log != f.log {
      FollowingMore(e, f.log, ToCome(f.log, got), g.log[|g.log| - 1]);
    }
  }

  lemma {:induction false} FaithfulRunLinks(w: World, sha: Hash, events: seq<Event>, end: World, i: nat, j: nat,
      got: bytes)
    requires Inv(w, sha) && Linked(w, i, j, got) && Runs(w, sha, events, end) && FaithfulRun(w, sha, events, i, j, got)
    ensures Inv(end, sha) && Linked(end, i, j, got + Brought(events, i))
    decreases |events|
  {
    hide Inv, Linked, Enabled, Do, Faithful, Brings;
    if events == [] {
      assert got + [] == got;
    } else {
      var ev := events[0];
      var next := Do(w, sha, ev);
      StepKeepsInv(w, sha, ev);
      if ev.Use? && ev.i == i {
        ReaderStep(w, sha, ev, i, j, got);
      } else {
        OtherStep(w, sha, ev, i, j, got);
        assert Brings(ev, i) == [] by { BringsNothing(ev, i); }
        assert got + [] == got;
      }
      FaithfulRunLinks(next, sha, events[1..], end, i, j, got + Brings(ev, i));
      Associates(got, Brings(ev, i), Brought(events[1..], i));
    }
  }

  lemma BringsNothing(ev: Event, i: nat)
    requires !(ev.Use? && ev.i == i)
    ensures Brings(ev, i) == []
  {
  }

  /** Session `i` has just been established and has been brought nothing. */
  ghost predicate JustUp(w: World, i: nat)
    requires i < |w.sessions| && w.sessions[i].endpoint.Some?
  {
    exists now: nat :: w.sessions[i].endpoint.value
                       == Start(Fresh(w.sessions[i].endpoint.value.transport.verifier.publicKey, now))
  }

  lemma NewReaderIsLinked(w: World, i: nat, j: nat)
    requires Reads(w, i, j) && JustUp(w, i)
    ensures Linked(w, i, j, [])
  {
    var e, log := w.sessions[i].endpoint.value, w.sessions[j].endpoint.value.log;
    var now: nat :| e == Start(Fresh(e.transport.verifier.publicKey, now));
    StartFollows(e.transport.verifier.publicKey, now, log);
    hide Following;
    assert Framed(log)[0..] == Framed(log);
  }

  /** Sessions that read and write in any order over a channel that is faithful from the
      moment the reader is established, while the world goes on around them. Once all that
      the writer has sent was brought and taken, and the writer has drained, the reader has
      exactly what the writer wrote before its first frame of more than 65536 bytes, all of
      it if there is none, and then no read with room has met an error or the end. At any
      time before, it has a prefix of that. The signature table need only hold what has been
      signed by then. */
  lemma SessionsDeliver(w: World, sha: Hash, events: seq<Event>, end: World, i: nat, j: nat)
    requires Inv(w, sha) && Reads(w, i, j) && JustUp(w, i)
    requires Runs(w, sha, events, end) && FaithfulRun(w, sha, events, i, j, [])
    ensures Reads(end, i, j)
    ensures var e, f := end.sessions[i].endpoint.value, end.sessions[j].endpoint.value;
            var k := Fitting(f.log);
            && e.transport.Valid() && f.transport.Valid() && e.transport.verifier.counter <= k
            && e.delivered + e.transport.Unread() == Flatten(Payloads(f.log)[..e.transport.verifier.counter])
            && (e.over ==> Overflowed(e.transport.reader))
            && (Brought(events, i) == f.sent && f.transport.Undrained() == [] && e.incoming == [] ==>
                  && e.transport.verifier.counter == k
                  && (k == |f.log| ==> !e.over && e.transport.reader == IDLE))
  {
    hide WireOf, Flatten;
    NewReaderIsLinked(w, i, j);
    FaithfulRunLinks(w, sha, events, end, i, j, []);
    assert [] + Brought(events, i) == Brought(events, i);
    EstablishedAt(end, sha, j);
    hide Inv, Runs, FaithfulRun, SessionOk, Genuine;
    var e, f := end.sessions[i].endpoint.value, end.sessions[j].endpoint.value;
    NoFurtherThanFits(e, f.log, ToCome(f.log, Brought(events, i)));
    if Brought(events, i) == f.sent && f.transport.Undrained() == [] && e.incoming == [] {
      assert f.sent + [] == f.sent;
      AtTheEnd(e, f.log);
    }
  }
}
