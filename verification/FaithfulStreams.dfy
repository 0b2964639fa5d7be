/** Payload streams over a channel that delivers what was sent: everything written
    arrives, exactly as far as the first frame that is too long. */
module FaithfulStreams {
  import opened Bytes
  import opened Wrappers
  import opened FrameReader
  import opened FrameStreams
  import opened Packets
  import opened Signatures
  import opened Transport
  import opened TransportRuns
  import Hdlc
  import PacketLaws

  function Datum(poll: ReadPoll): bytes {
    if poll.Byte? then [poll.b] else []
  }

  /** The bytes among the polls. */
  function Data(script: seq<ReadPoll>): bytes {
    if script == [] then [] else Datum(script[0]) + Data(script[1..])
  }

  predicate NoEnd(script: seq<ReadPoll>) {
    forall i :: 0 <= i < |script| ==> script[i].Pending? || script[i].Byte?
  }

  lemma {:induction false} DataAppend(x: seq<ReadPoll>, y: seq<ReadPoll>)
    ensures Data(x + y) == Data(x) + Data(y)
  {
    if x == [] {
      assert x + y == y;
    } else {
      assert (x + y)[1..] == x[1..] + y;
      DataAppend(x[1..], y);
    }
  }

  // ---------------------------------------------------------------------- one frame

  /** The reader meets `f` next: it yields `f` or waits for more of it; only if `f` is too
      long does it fail, and then it has overflowed. */
  lemma {:induction false} NextFrame(r: Reader, script: seq<ReadPoll>, toCome: bytes, f: bytes, tail: bytes)
    requires r.Valid() && NoEnd(script) && Delimited(f)
    requires r.frame + Data(script) + toCome == f + tail && |r.frame| < |f|
    ensures var step := ReadFrame(r, script);
            && NoEnd(step.rest) && step.reader.Valid()
            && match step.outcome {
              case Suspended =>
                step.reader.frame + Data(step.rest) + toCome == f + tail && |step.reader.frame| < |f|
              case Frame(g) =>
                g == f && |f| <= MAX_FRAME_SIZE && step.reader == IDLE && Data(step.rest) + toCome == tail
              case TooLong => |f| > MAX_FRAME_SIZE && Overflowed(step.reader)
              case _ => false
            }
    decreases |script|
  {
    if script != [] {
      ReactKeepsValid(r, script[0]);
      assert NoEnd(script[1..]);
      if script[0] == Pending {
        assert Data(script) == Data(script[1..]);
      } else {
        NextByte(r, script, toCome, f, tail);
        var next := React(r, script[0]);
        if next.outcome.None? {
          NextFrame(next.reader, script[1..], toCome, f, tail);
        }
      }
    }
  }

  lemma NextByte(r: Reader, script: seq<ReadPoll>, toCome: bytes, f: bytes, tail: bytes)
    requires r.Valid() && script != [] && script[0].Byte? && Delimited(f)
    requires r.frame + Data(script) + toCome == f + tail && |r.frame| < |f|
    ensures var next := React(r, script[0]);
            match next.outcome {
              case None =>
                next.reader.frame + Data(script[1..]) + toCome == f + tail && |next.reader.frame| < |f|
              case Some(Frame(g)) =>
                g == f && |f| <= MAX_FRAME_SIZE && next.reader == IDLE && Data(script[1..]) + toCome == tail
              case Some(TooLong) => |f| > MAX_FRAME_SIZE && Overflowed(next.reader)
              case _ => false
            }
  {
    hide Data;
    var b, k, rest := script[0].b, |r.frame|, Data(script[1..]) + toCome;
    assert Data(script) == [b] + Data(script[1..]) by { DataStep(script); }
    assert r.frame + Data(script) + toCome == r.frame + [b] + rest;
    SplitAt(r.frame, b, rest, f, tail);
    if k > 0 && k < |f| - 1 {
      assert f[1..|f| - 1][k - 1] == b;
    }
    assert (r.frame + [b]) + Data(script[1..]) + toCome == r.frame + [b] + rest;
  }

  lemma DataStep(script: seq<ReadPoll>)
    requires script != []
    ensures Data(script) == Datum(script[0]) + Data(script[1..])
  {
  }

  lemma SplitAt(x: bytes, b: byte, rest: bytes, f: bytes, tail: bytes)
    requires x + [b] + rest == f + tail && |x| < |f|
    ensures f[|x|] == b && x == f[..|x|]
    ensures |x| + 1 == |f| ==> x + [b] == f && rest == tail
  {
    var all := f + tail;
    assert all[|x|] == b && all[..|x|] == x;
    if |x| + 1 == |f| {
      assert all[|f|..] == rest && all[|f|..] == tail;
      assert all[..|f|] == f && all[..|f|] == x + [b];
    }
  }

  lemma {:induction false} NothingNext(r: Reader, script: seq<ReadPoll>)
    requires NoEnd(script) && Data(script) == []
    ensures var step := ReadFrame(r, script);
            step.outcome == Suspended && step.reader == r && NoEnd(step.rest) && Data(step.rest) == []
    decreases |script|
  {
    if script != [] {
      assert Data(script) == Datum(script[0]) + Data(script[1..]);
    }
  }

  lemma {:induction false} StaysOverflowed(r: Reader, script: seq<ReadPoll>)
    requires Overflowed(r) && NoEnd(script)
    ensures var step := ReadFrame(r, script);
            step.outcome in {Suspended, TooLong} && step.reader == r && NoEnd(step.rest)
    decreases |script|
  {
  }

  // ------------------------------------------------------------------------- one fill

  predicate FitsFrame(s: Signing) { |WireOf(s)| <= MAX_FRAME_SIZE }

  /** Frame `i` carries the signature that the library made for counter `i`. */
  ghost predicate Genuine(log: seq<Signing>, key: Bytes32, table: Table) {
    && |log| < 0x1_0000_0000_0000_0000
    && forall i :: 0 <= i < |log| ==> GenuineAt(log[i], i, key, table)
  }

  /** The same of the frames that have arrived in full, with `toCome` still to arrive: of
      what the peer has yet to send, nothing need have been signed. */
  ghost predicate GenuineSoFar(log: seq<Signing>, key: Bytes32, table: Table, toCome: bytes) {
    && |log| < 0x1_0000_0000_0000_0000
    && forall i :: 0 <= i < |log| && |Framed(log[..i + 1])| + |toCome| <= |Framed(log)| ==>
         GenuineAt(log[i], i, key, table)
  }

  ghost predicate GenuineAt(s: Signing, i: u64, key: Bytes32, table: Table) {
    && s.counter == i && |s.signature| == ED25519_SIGNATURE_LEN
    && Triple(Key(Ed25519, key), PacketSignatureInput(i, s.data), s.signature) in table
  }

  lemma GenuineIsSoFar(log: seq<Signing>, key: Bytes32, table: Table, toCome: bytes)
    requires Genuine(log, key, table)
    ensures GenuineSoFar(log, key, table, toCome)
  {
    hide GenuineAt, Framed;
  }

  /** No reading of the clock within the poll finds the verifier idle. */
  ghost predicate Timely(v: Verifier, clock: Clock) {
    && (forall n: nat :: Elapsed(v.lastSuccess, clock(n).0) <= MAX_CONNECTION_IDLE)
    && (forall m: nat, n: nat :: Elapsed(clock(m).1, clock(n).0) <= MAX_CONNECTION_IDLE)
  }

  /** Where a reader stands in the stream of frames: `toCome` has not arrived yet. Either
      all between it and the next frame to verify is accounted for, or that frame was too
      long. */
  ghost predicate Position(t: Transport, script: seq<ReadPoll>, log: seq<Signing>, toCome: bytes) {
    var c := t.verifier.counter;
    && t.reader.Valid() && NoEnd(script) && c <= |log|
    && (forall i :: 0 <= i < c ==> FitsFrame(log[i]))
    && (Expecting(t.reader, script, log[c..], toCome) || Stuck(t.reader, log[c..]))
  }

  ghost predicate Expecting(r: Reader, script: seq<ReadPoll>, left: seq<Signing>, toCome: bytes) {
    r.frame + Data(script) + toCome == Framed(left) && (left != [] ==> |r.frame| < |WireOf(left[0])|)
  }

  ghost predicate Stuck(r: Reader, left: seq<Signing>) {
    left != [] && !FitsFrame(left[0]) && Overflowed(r)
  }

  lemma GenuineReceive(t: Transport, s: Signing, i: u64, table: Table, reading: (nat, nat))
    requires FitsFrame(s) && GenuineAt(s, i, t.verifier.publicKey, table) && t.verifier.counter == i
    requires Elapsed(t.verifier.lastSuccess, reading.0) <= MAX_CONNECTION_IDLE
    ensures var v := Verifier(t.verifier.publicKey, NextCounter(i), reading.1);
            Receive(t, WireOf(s), table, reading)
            == if s.data == [] then Received(None, t.(verifier := v))
               else Received(Some(Filled), t.(verifier := v, readBuffer := s.data, readOffset := 0))
  {
    hide Hdlc.Decoded, Hdlc.Encoded, Deserialize, PayloadWire;
    Hdlc.RoundTripExactly(PayloadWire(s.data, s.signature));
    PacketLaws.PayloadExactly(s.data, s.signature, NO_KEYS, t.verifier, table, reading.0, reading.1);
  }

  /** A frame is taken only where it is the next to verify and fits. */
  ghost predicate Took(t: Transport, frame: bytes, script: seq<ReadPoll>, log: seq<Signing>, toCome: bytes) {
    var c := t.verifier.counter;
    && c < |log| && (forall i :: 0 <= i <= c ==> FitsFrame(log[i])) && frame == WireOf(log[c])
    && t.reader == IDLE && NoEnd(script) && [] + Data(script) + toCome == Framed(log[c..][1..])
  }

  lemma FaithfulFrame(t: Transport, script: seq<ReadPoll>, log: seq<Signing>, toCome: bytes)
    requires Position(t, script, log, toCome)
    ensures var step := ReadFrame(t.reader, script);
            var next := t.(reader := step.reader);
            if step.outcome.Frame? then Took(next, step.outcome.frame, step.rest, log, toCome)
            else
              && Position(next, step.rest, log, toCome)
              && (step.outcome == Suspended || (step.outcome == TooLong && Overflowed(next.reader)))
  {
    hide ReadFrame, WireOf;
    var left, step := log[t.verifier.counter..], ReadFrame(t.reader, script);
    if Stuck(t.reader, left) {
      StaysOverflowed(t.reader, script);
    } else if left == [] {
      assert t.reader.frame == [] && Data(script) == [] && toCome == [];
      NothingNext(t.reader, script);
    } else {
      WireIsDelimited(left[0]);
      NextFrame(t.reader, script, toCome, WireOf(left[0]), Framed(left[1..]));
    }
  }

  lemma {:induction false} FaithfulFill(t: Transport, script: seq<ReadPoll>, table: Table, clock: Clock,
      log: seq<Signing>, toCome: bytes)
    requires Position(t, script, log, toCome)
    requires GenuineSoFar(log, t.verifier.publicKey, table, toCome) && Timely(t.verifier, clock)
    ensures var step := Fill(t, script, table, clock);
            var c, d, payloads := t.verifier.counter, step.transport.verifier.counter, Payloads(log);
            && Position(step.transport, step.rest, log, toCome)
            && Timely(step.transport.verifier, clock)
            && step.transport.verifier.publicKey == t.verifier.publicKey
            && Flatten(payloads[..d]) == Flatten(payloads[..c]) +
                 (if step.outcome == Filled then step.transport.readBuffer else [])
            && (step.outcome == Filled || step.outcome == FillPending ||
                (step.outcome == FillFailed && Overflowed(step.transport.reader)))
    decreases |script|
  {
    hide ReadFrame, Receive, Flatten, WireOf, GenuineSoFar, Timely, Expecting, Stuck, FitsFrame, Took;
    var step := ReadFrame(t.reader, script);
    var same := Flatten(Payloads(log)[..t.verifier.counter]);
    assert same + [] == same;
    FaithfulFrame(t, script, log, toCome);
    if step.outcome.Frame? {
      var next := t.(reader := step.reader);
      InTime(t.verifier, clock, |step.rest|);
      FaithfulReceive(next, step.outcome.frame, step.rest, table, clock(|step.rest|), log, toCome);
      var received := Receive(next, step.outcome.frame, table, clock(|step.rest|));
      if received.outcome.None? {
        FrameConsumes(t.reader, script);
        FaithfulFill(received.transport, step.rest, table, clock, log, toCome);
      }
    }
  }

  lemma FaithfulReceive(t: Transport, frame: bytes, script: seq<ReadPoll>, table: Table, reading: (nat, nat),
      log: seq<Signing>, toCome: bytes)
    requires Took(t, frame, script, log, toCome)
    requires GenuineSoFar(log, t.verifier.publicKey, table, toCome)
    requires Elapsed(t.verifier.lastSuccess, reading.0) <= MAX_CONNECTION_IDLE
    ensures var c, r := t.verifier.counter, Receive(t, frame, table, reading);
            var v := r.transport.verifier;
            && Position(r.transport, script, log, toCome)
            && v == Verifier(t.verifier.publicKey, c + 1, reading.1)
            && Flatten(Payloads(log)[..c + 1]) == Flatten(Payloads(log)[..c]) +
                 (if r.outcome == Some(Filled) then r.transport.readBuffer else [])
            && (r.outcome.Some? ==> r.outcome.value == Filled)
  {
    hide Receive, Flatten, WireOf, GenuineSoFar, NextCounter;
    var c := t.verifier.counter;
    TookIsGenuine(t, frame, script, log, toCome, table);
    GenuineReceive(t, log[c], c, table, reading);
    FlattenTake(Payloads(log), c);
    assert log[c + 1..] == log[c..][1..];
    WiresAreNonEmpty(log[c + 1..]);
  }

  lemma WireIsDelimited(s: Signing)
    ensures Delimited(WireOf(s))
  {
    EncodedIsDelimited(PayloadWire(s.data, s.signature));
  }

  lemma WiresAreNonEmpty(left: seq<Signing>)
    ensures left != [] ==> |WireOf(left[0])| > 0
  {
    if left != [] {
      WireIsDelimited(left[0]);
    }
  }

  lemma InTime(v: Verifier, clock: Clock, n: nat)
    requires Timely(v, clock)
    ensures Elapsed(v.lastSuccess, clock(n).0) <= MAX_CONNECTION_IDLE
    ensures forall w: Verifier :: w.lastSuccess == clock(n).1 ==> Timely(w, clock)
  {
  }

  /** The frame that was taken has arrived in full. */
  lemma TookIsGenuine(t: Transport, frame: bytes, script: seq<ReadPoll>, log: seq<Signing>, toCome: bytes, table: Table)
    requires Took(t, frame, script, log, toCome)
    requires GenuineSoFar(log, t.verifier.publicKey, table, toCome)
    ensures var c := t.verifier.counter;
            GenuineAt(log[c], c, t.verifier.publicKey, table) && NextCounter(c) == c + 1
  {
    hide WireOf, GenuineAt, FitsFrame;
    var c := t.verifier.counter;
    assert log[c..][1..] == log[c + 1..] && log == log[..c + 1] + log[c + 1..];
    FramedAppend(log[..c + 1], log[c + 1..]);
  }

  // ----------------------------------------------------------------------- whole runs

  /** All bytes that arrive during a run. */
  function Arrived(ops: seq<Op>): bytes {
    if ops == [] then []
    else (if ops[0].Arrive? then Data(ops[0].polls) else []) + Arrived(ops[1..])
  }

  /** What the surroundings grant, with `toCome` to arrive after the operation: no error or
      end from below, a signature library that accepts what it has made, and no idle hour. */
  ghost predicate Fair(v: Verifier, op: Op, log: seq<Signing>, toCome: bytes) {
    match op
    case Arrive(polls) => NoEnd(polls)
    case ReadOp(_, table, clock) => GenuineSoFar(log, v.publicKey, table, toCome) && Timely(v, clock)
    case _ => true
  }

  /** The same of a run, after which `toCome` is still to arrive. Reads may come before the
      peer has written, or signed, what arrives later. */
  ghost predicate FairRun(e: Endpoint, ops: seq<Op>, log: seq<Signing>, toCome: bytes)
    requires e.transport.Valid()
    decreases |ops|
  {
    ops == [] ||
    (Fair(e.transport.verifier, ops[0], log, Arrived(ops[1..]) + toCome) &&
     (StepKeepsValid(e, ops[0]); FairRun(Step(e, ops[0]), ops[1..], log, toCome)))
  }

  ghost predicate Following(e: Endpoint, log: seq<Signing>, toCome: bytes) {
    && Position(e.transport, e.incoming, log, toCome)
    && ReadSide(e.transport, e.delivered, Payloads(log))
    && (e.over ==> Overflowed(e.transport.reader))
  }

  lemma ArriveFollows(e: Endpoint, polls: seq<ReadPoll>, log: seq<Signing>, toCome: bytes)
    requires Following(e, log, Data(polls) + toCome) && NoEnd(polls)
    ensures Following(e.(incoming := e.incoming + polls), log, toCome)
  {
    hide Data, Framed;
    DataAppend(e.incoming, polls);
    var x, y := e.transport.reader.frame, Data(e.incoming);
    assert x + (y + Data(polls)) + toCome == x + y + (Data(polls) + toCome);
  }

  lemma ReadFollows(e: Endpoint, op: Op, log: seq<Signing>, toCome: bytes)
    requires op.ReadOp? && Following(e, log, toCome) && Fair(e.transport.verifier, op, log, toCome)
    ensures Following(Step(e, op), log, toCome)
    ensures Step(e, op).transport.verifier.publicKey == e.transport.verifier.publicKey
  {
    hide Fill, GenuineSoFar, Timely, Flatten, TakeUnread, Expecting, Stuck, FitsFrame, NoEnd;
    var t, next := e.transport, Step(e, op);
    assert e.delivered + [] == e.delivered;
    if op.room > 0 {
      if t.readOffset != |t.readBuffer| {
        TakeConserves(t, op.room);
        var got := TakeUnread(t, op.room).0.data;
        Associates(e.delivered, got, next.transport.Unread());
      } else {
        FillKeepsValid(t, e.incoming, op.table, op.clock);
        FaithfulFill(t, e.incoming, op.table, op.clock, log, toCome);
        var filled := Fill(t, e.incoming, op.table, op.clock);
        assert t.Unread() == [];
        if filled.outcome == Filled {
          TakeConserves(filled.transport, op.room);
          var got := TakeUnread(filled.transport, op.room).0.data;
          Associates(e.delivered, got, next.transport.Unread());
          assert filled.transport.Unread() == filled.transport.readBuffer;
          StillOverflowed(t, e.incoming, op.table, op.clock);
        } else {
          assert next.transport.Unread() == [];
          StillOverflowed(t, e.incoming, op.table, op.clock);
        }
      }
    }
  }

  lemma {:induction false} StillOverflowed(t: Transport, script: seq<ReadPoll>, table: Table, clock: Clock)
    ensures NoEnd(script) && Overflowed(t.reader) ==> Fill(t, script, table, clock).transport.reader == t.reader
  {
    if NoEnd(script) && Overflowed(t.reader) {
      StaysOverflowed(t.reader, script);
    }
  }

  lemma StepFollows(e: Endpoint, op: Op, log: seq<Signing>, toCome: bytes)
    requires Following(e, log, (if op.Arrive? then Data(op.polls) else []) + toCome)
    requires Fair(e.transport.verifier, op, log, toCome)
    ensures Following(Step(e, op), log, toCome)
  {
    hide Drain, Queue, ReadPayload, Position, Flatten, Fair;
    assert [] + toCome == toCome;
    match op
    case Arrive(polls) =>
      assert NoEnd(polls) by { FairArrival(e.transport.verifier, op, log, toCome); }
      ArriveFollows(e, polls, log, toCome);
    case ReadOp(_, _, _) => ReadFollows(e, op, log, toCome);
    case WriteOp(data, signature, writes) =>
      DrainConserves(e.transport, writes);
      QueueKeeps(Drain(e.transport, writes).transport, data, signature);
      PositionIsOfReader(e.transport, Step(e, op).transport, e.incoming, log, toCome);
    case KeepaliveOp(signature, writes) =>
      DrainConserves(e.transport, writes);
      QueueKeeps(Drain(e.transport, writes).transport, [], signature);
      PositionIsOfReader(e.transport, Step(e, op).transport, e.incoming, log, toCome);
    case FlushOp(writes) =>
      DrainConserves(e.transport, writes);
      PositionIsOfReader(e.transport, Step(e, op).transport, e.incoming, log, toCome);
  }

  lemma FairArrival(v: Verifier, op: Op, log: seq<Signing>, toCome: bytes)
    requires op.Arrive? && Fair(v, op, log, toCome)
    ensures NoEnd(op.polls)
  {
  }

  lemma PositionIsOfReader(t: Transport, u: Transport, script: seq<ReadPoll>, log: seq<Signing>, toCome: bytes)
    requires Position(t, script, log, toCome) && t.reader == u.reader && t.verifier == u.verifier
    ensures Position(u, script, log, toCome)
  {
  }

  lemma {:induction false} RunFollows(e: Endpoint, ops: seq<Op>, log: seq<Signing>, toCome: bytes)
    requires e.transport.Valid() && FairRun(e, ops, log, toCome) && Following(e, log, Arrived(ops) + toCome)
    ensures Following(Steps(e, ops), log, toCome)
    decreases |ops|
  {
    hide Step, Following, Fair, Data;
    if ops == [] {
      assert [] + toCome == toCome;
    } else {
      var now := if ops[0].Arrive? then Data(ops[0].polls) else [];
      Associates(now, Arrived(ops[1..]), toCome);
      StepFollows(e, ops[0], log, Arrived(ops[1..]) + toCome);
      StepKeepsValid(e, ops[0]);
      RunFollows(Step(e, ops[0]), ops[1..], log, toCome);
    }
  }

  /** How many frames come before the first that does not fit. */
  function Fitting(log: seq<Signing>): (k: nat)
    ensures k <= |log|
    ensures forall i :: 0 <= i < k ==> FitsFrame(log[i])
    ensures k < |log| ==> !FitsFrame(log[k])
  {
    if log == [] || !FitsFrame(log[0]) then 0 else 1 + Fitting(log[1..])
  }

  lemma FramedStarts(left: seq<Signing>)
    ensures left != [] ==> |Framed(left)| >= |WireOf(left[0])|
  {
  }

  /** With nothing left to come or to take, the reader is past all frames that fit. */
  lemma AtTheEnd(e: Endpoint, log: seq<Signing>)
    requires Following(e, log, []) && e.incoming == []
    ensures var k := Fitting(log);
            && e.transport.verifier.counter == k
            && (k == |log| ==> !e.over && e.transport.reader == IDLE)
            && (k < |log| ==> Overflowed(e.transport.reader))
  {
    hide WireOf, Flatten;
    var left := log[e.transport.verifier.counter..];
    if Expecting(e.transport.reader, e.incoming, left, []) {
      assert e.transport.reader.frame + [] + [] == e.transport.reader.frame;
      FramedStarts(left);
    }
  }

  /** A payload stream that has received every byte the peer sent, and has no more polls
      to take: what was read, with what is still buffered, is what the peer wrote before
      its first frame of more than 65536 bytes, all of it if there is none; and then no
      read with room has reported an error or the end. Any schedule of Pending, short
      reads and buffer sizes, and anything written meanwhile. */
  lemma EverythingThatFitsArrives(key: Bytes32, now: nat, ops: seq<Op>, log: seq<Signing>)
    requires FairRun(Start(Fresh(key, now)), ops, log, []) && Arrived(ops) == Framed(log)
    requires Steps(Start(Fresh(key, now)), ops).incoming == []
    ensures var e, k := Steps(Start(Fresh(key, now)), ops), Fitting(log);
            && e.transport.verifier.counter == k
            && e.delivered + e.transport.Unread() == Flatten(Payloads(log)[..k])
            && (k == |log| ==> !e.over && e.transport.reader == IDLE)
            && (k < |log| ==> Overflowed(e.transport.reader))
  {
    hide Steps, FairRun, WireOf;
    var start := Start(Fresh(key, now));
    assert Arrived(ops) + [] == Framed(log);
    StartFollows(key, now, log);
    RunFollows(start, ops, log, []);
    AtTheEnd(Steps(start, ops), log);
  }

  /** The same for the bytes that a peer's payload stream did send, once it has drained. */
  lemma EverythingWrittenArrives(peer: Endpoint, key: Bytes32, now: nat, ops: seq<Op>)
    requires WriteSide(peer) && peer.transport.Undrained() == []
    requires FairRun(Start(Fresh(key, now)), ops, peer.log, []) && Arrived(ops) == peer.sent
    requires Steps(Start(Fresh(key, now)), ops).incoming == []
    requires forall i :: 0 <= i < |peer.log| ==> |peer.log[i].data| <= 32700 && |peer.log[i].signature| == 64
    ensures var e := Steps(Start(Fresh(key, now)), ops);
            && e.delivered + e.transport.Unread() == Flatten(Payloads(peer.log)) && !e.over
            && e.transport.verifier.counter == |peer.log|
  {
    hide Steps, FairRun, Flatten, Framed;
    assert peer.sent + [] == peer.sent;
    EverythingThatFitsArrives(key, now, ops, peer.log);
    var k := Fitting(peer.log);
    if k < |peer.log| {
      WritesThatFit(peer.log[k]);
    }
    assert Payloads(peer.log)[..|peer.log|] == Payloads(peer.log);
  }

  /** A write of at most 32700 bytes always fits and one of more than 65467 never does,
      though it is accepted all the same. */
  lemma WritesThatFit(s: Signing)
    requires |s.signature| == ED25519_SIGNATURE_LEN
    ensures |s.data| <= 32700 ==> FitsFrame(s)
    ensures |s.data| > 65467 ==> !FitsFrame(s)
  {
    hide Hdlc.Encoded, Hdlc.Decoded;
    var wire := PayloadWire(s.data, s.signature);
    Hdlc.RoundTripBounds(wire);
    Hdlc.RoundTripExactly(wire);
  }

  lemma NoFurtherThanFits(e: Endpoint, log: seq<Signing>, toCome: bytes)
    requires Following(e, log, toCome)
    ensures e.transport.verifier.counter <= Fitting(log)
  {
    hide Expecting, Stuck, Flatten;
  }

  /** A write of more than 65467 bytes is accepted, and neither it nor anything after it is
      ever delivered, however the rest of the run goes. */
  lemma LongWriteIsLost(peer: Endpoint, data: bytes, signature: bytes, writes: seq<WritePoll>, log: seq<Signing>,
      key: Bytes32, now: nat, ops: seq<Op>, toCome: bytes)
    requires WriteSide(peer) && Drain(peer.transport, writes).outcome == Drained
    requires |data| > 65467 && |signature| == ED25519_SIGNATURE_LEN
    requires Step(peer, WriteOp(data, signature, writes)).log <= log
    requires FairRun(Start(Fresh(key, now)), ops, log, toCome) && Arrived(ops) + toCome == Framed(log)
    ensures WritePayload(peer.transport, data, signature, writes).outcome == Written(|data|)
    ensures var e := Steps(Start(Fresh(key, now)), ops);
            && e.transport.verifier.counter <= |peer.log|
            && e.delivered + e.transport.Unread() <= Flatten(Payloads(peer.log))
  {
    hide Steps, FairRun, WireOf, Drain, Flatten, Framed, Hdlc.Encoded, PayloadWire;
    var s := Signing(peer.transport.signCounter, data, signature);
    WritesThatFit(s);
    DrainConserves(peer.transport, writes);
    assert Step(peer, WriteOp(data, signature, writes)).log == peer.log + [s];
    assert log[|peer.log|] == s && log[..|peer.log|] == peer.log;
    StartFollows(key, now, log);
    RunFollows(Start(Fresh(key, now)), ops, log, toCome);
    var e := Steps(Start(Fresh(key, now)), ops);
    NoFurtherThanFits(e, log, toCome);
    var c := e.transport.verifier.counter;
    assert Payloads(log)[..c] == Payloads(peer.log)[..c];
    FlattenPrefix(Payloads(peer.log), c);
  }

  lemma StartFollows(key: Bytes32, now: nat, log: seq<Signing>)
    ensures Following(Start(Fresh(key, now)), log, Framed(log))
  {
    hide WireOf;
    assert log[0..] == log && Payloads(log)[..0] == [];
    assert [] + [] + Framed(log) == Framed(log);
    WiresAreNonEmpty(log);
  }
}
