/** Payload streams over whole runs: what is sent, what is delivered, under any schedule
    of polls, short writes and buffer sizes. */
module TransportRuns {
  import opened Bytes
  import opened Wrappers
  import opened FrameReader
  import opened Packets
  import opened Signatures
  import opened Transport
  import opened VerifierRuns
  import Hdlc

  /** One payload that was signed: by the counter it was signed with. */
  datatype Signing = Signing(counter: u64, data: bytes, signature: bytes)

  /** A payload stream with its surroundings: polls that the stream below has in store,
      bytes given to that stream, payloads signed, bytes read by the application, and
      whether a read with room has reported an error or the end of the stream. */
  datatype Endpoint = Endpoint(
    transport: Transport,
    incoming: seq<ReadPoll>,
    sent: bytes,
    log: seq<Signing>,
    delivered: bytes,
    over: bool)

  datatype Op =
    | Arrive(polls: seq<ReadPoll>)
    | ReadOp(room: nat, table: Table, clock: Clock)
    | WriteOp(data: bytes, signature: bytes, writes: seq<WritePoll>)
    | KeepaliveOp(signature: bytes, writes: seq<WritePoll>)
    | FlushOp(writes: seq<WritePoll>)

  function Start(t: Transport): Endpoint {
    Endpoint(t, [], [], [], [], false)
  }

  function Step(e: Endpoint, op: Op): Endpoint
    requires e.transport.Valid()
  {
    match op
    case Arrive(polls) => e.(incoming := e.incoming + polls)
    case ReadOp(room, table, clock) =>
      var step := ReadPayload(e.transport, room, e.incoming, table, clock);
      var got := if step.outcome.Read? then step.outcome.data else [];
      e.(transport := step.transport, incoming := step.rest, delivered := e.delivered + got,
         over := e.over || (room > 0 && step.outcome in {ReadFailed, Read([])}))
    case WriteOp(data, signature, writes) =>
      var step := WritePayload(e.transport, data, signature, writes);
      var signing := Signing(e.transport.signCounter, data, signature);
      e.(transport := step.transport, sent := e.sent + step.sent,
         log := e.log + if step.outcome == Written(|data|) && data != [] then [signing] else [])
    case KeepaliveOp(signature, writes) =>
      var step := QueueKeepalive(e.transport, signature, writes);
      var signing := Signing(e.transport.signCounter, [], signature);
      e.(transport := step.transport, sent := e.sent + step.sent,
         log := e.log + if step.outcome == Drained then [signing] else [])
    case FlushOp(writes) =>
      var step := FlushPayload(e.transport, writes);
      e.(transport := step.transport, sent := e.sent + step.sent)
  }

  function Steps(e: Endpoint, ops: seq<Op>): (r: Endpoint)
    requires e.transport.Valid()
    ensures r.transport.Valid()
    decreases |ops|
  {
    if ops == [] then e
    else
      StepKeepsValid(e, ops[0]);
      Steps(Step(e, ops[0]), ops[1..])
  }

  // ------------------------------------------------------------------- the write side

  function WireOf(s: Signing): bytes {
    Hdlc.Encoded(PayloadWire(s.data, s.signature))
  }

  function Framed(log: seq<Signing>): bytes {
    if log == [] then [] else WireOf(log[0]) + Framed(log[1..])
  }

  lemma {:induction false} FramedAppend(x: seq<Signing>, y: seq<Signing>)
    ensures Framed(x + y) == Framed(x) + Framed(y)
  {
    hide WireOf;
    if x == [] {
      assert x + y == y;
    } else {
      assert (x + y)[1..] == x[1..] + y;
      FramedAppend(x[1..], y);
    }
  }

  lemma Associates(x: bytes, y: bytes, z: bytes)
    ensures (x + y) + z == x + (y + z)
  {
  }

  lemma {:induction false} DrainConserves(t: Transport, writes: seq<WritePoll>)
    requires t.Valid()
    ensures var step := Drain(t, writes);
            && step.transport.Valid()
            && step.sent + step.transport.Undrained() == t.Undrained()
            && (step.outcome == Drained ==> step.transport.Undrained() == [])
            && step.transport == t.(writeBuffer := step.transport.writeBuffer,
                 writeOffset := step.transport.writeOffset)
    decreases |t.writeBuffer| - t.writeOffset
  {
    hide Drain, FirstWrite;
    if t.writeOffset == |t.writeBuffer| {
      DrainsNothing(t, writes);
    } else {
      DrainTakes(t, writes);
      var poll := FirstWrite(writes, |t.Undrained()|);
      var step := Drain(t, writes);
      if poll.Wrote? && poll.n > 0 {
        var next := t.(writeOffset := t.writeOffset + poll.n);
        DrainConserves(next, Tail(writes));
        var rest := Drain(next, Tail(writes));
        var head := t.Undrained()[..poll.n];
        Associates(head, rest.sent, rest.transport.Undrained());
        assert t.Undrained() == head + next.Undrained() by {
          assert next.Undrained() == t.Undrained()[poll.n..];
        }
      }
    }
  }

  lemma ReadPayloadKeeps(t: Transport, room: nat, script: seq<ReadPoll>, table: Table, clock: Clock)
    requires t.Valid()
    ensures var step := ReadPayload(t, room, script, table, clock);
            && step.transport.Valid()
            && step.transport.signCounter == t.signCounter
            && step.transport.writeBuffer == t.writeBuffer && step.transport.writeOffset == t.writeOffset
  {
    hide Fill;
    FillKeepsValid(t, script, table, clock);
  }

  lemma StepKeepsValid(e: Endpoint, op: Op)
    requires e.transport.Valid()
    ensures Step(e, op).transport.Valid()
  {
    hide Drain, ReadPayload;
    match op
    case Arrive(_) =>
    case ReadOp(room, table, clock) => ReadPayloadKeeps(e.transport, room, e.incoming, table, clock);
    case WriteOp(_, _, writes) => DrainConserves(e.transport, writes);
    case KeepaliveOp(_, writes) => DrainConserves(e.transport, writes);
    case FlushOp(writes) => DrainConserves(e.transport, writes);
  }

  /** Sent and undrained bytes are the frames of what was signed, in order; the `i`-th is
      signed with counter `i` (in 64 bits), and `NextCounter` is what the next one gets. */
  ghost predicate WriteSide(e: Endpoint) {
    && e.transport.Valid()
    && e.sent + e.transport.Undrained() == Framed(e.log)
    && e.transport.signCounter == |e.log| % 0x1_0000_0000_0000_0000
    && forall i :: 0 <= i < |e.log| ==> e.log[i].counter == i % 0x1_0000_0000_0000_0000
  }

  lemma FramedOne(s: Signing)
    ensures Framed([s]) == WireOf(s)
  {
    assert [s][1..] == [];
    assert WireOf(s) + [] == WireOf(s);
  }

  lemma CounterCounts(n: nat)
    ensures NextCounter(n % 0x1_0000_0000_0000_0000) == (n + 1) % 0x1_0000_0000_0000_0000
  {
  }

  lemma QueueConserves(e: Endpoint, t: Transport, sent: bytes, data: bytes, signature: bytes)
    requires WriteSide(e) && t.Valid()
    requires sent + t.Undrained() == Framed(e.log) && t.Undrained() == []
    requires t.signCounter == e.transport.signCounter
    ensures WriteSide(e.(transport := Queue(t, data, signature), sent := sent,
                         log := e.log + [Signing(e.transport.signCounter, data, signature)]))
  {
    hide Hdlc.Encoded, NextCounter, Framed;
    var s := Signing(e.transport.signCounter, data, signature);
    CounterCounts(|e.log|);
    FramedAppend(e.log, [s]);
    FramedOne(s);
    assert Queue(t, data, signature).Undrained() == WireOf(s);
    assert sent + t.Undrained() == sent;
  }

  lemma StepKeepsWriteSide(e: Endpoint, op: Op)
    requires WriteSide(e)
    ensures WriteSide(Step(e, op))
  {
    hide Drain, ReadPayload, Queue, Framed;
    var t := e.transport;
    match op
    case Arrive(_) =>
    case ReadOp(room, table, clock) => ReadPayloadKeeps(t, room, e.incoming, table, clock);
    case WriteOp(data, signature, writes) =>
      DrainConserves(t, writes);
      var step := Drain(t, writes);
      assert e.sent + t.Undrained() == (e.sent + step.sent) + step.transport.Undrained();
      if step.outcome == Drained && data != [] {
        QueueConserves(e, step.transport, e.sent + step.sent, data, signature);
      } else {
        assert e.log + [] == e.log;
      }
    case KeepaliveOp(signature, writes) =>
      DrainConserves(t, writes);
      var step := Drain(t, writes);
      assert e.sent + t.Undrained() == (e.sent + step.sent) + step.transport.Undrained();
      if step.outcome == Drained {
        QueueConserves(e, step.transport, e.sent + step.sent, [], signature);
      } else {
        assert e.log + [] == e.log;
      }
    case FlushOp(writes) =>
      DrainConserves(t, writes);
      var step := Drain(t, writes);
      assert e.sent + t.Undrained() == (e.sent + step.sent) + step.transport.Undrained();
  }

  /** Whatever the schedule: nothing is lost, repeated or reordered on the way out. */
  lemma {:induction false} NothingIsLostOnTheWayOut(e: Endpoint, ops: seq<Op>)
    requires WriteSide(e)
    ensures WriteSide(Steps(e, ops))
    decreases |ops|
  {
    hide Step;
    if ops != [] {
      StepKeepsWriteSide(e, ops[0]);
      NothingIsLostOnTheWayOut(Step(e, ops[0]), ops[1..]);
    }
  }

  lemma FreshWriteSide(peerKey: Bytes32, now: nat)
    ensures WriteSide(Start(Fresh(peerKey, now)))
  {
  }

  // -------------------------------------------------------------- the read side, safely

  /** The payloads one after the other: what an application reads from them. */
  function Flatten(payloads: seq<bytes>): bytes {
    if payloads == [] then [] else payloads[0] + Flatten(payloads[1..])
  }

  lemma {:induction false} FlattenAppend(x: seq<bytes>, y: seq<bytes>)
    ensures Flatten(x + y) == Flatten(x) + Flatten(y)
  {
    if x == [] {
      assert x + y == y;
    } else {
      assert (x + y)[1..] == x[1..] + y;
      FlattenAppend(x[1..], y);
    }
  }

  lemma FlattenTake(payloads: seq<bytes>, k: nat)
    requires k < |payloads|
    ensures Flatten(payloads[..k + 1]) == Flatten(payloads[..k]) + payloads[k]
  {
    assert payloads[..k + 1] == payloads[..k] + [payloads[k]];
    FlattenAppend(payloads[..k], [payloads[k]]);
    assert [payloads[k]][1..] == [];
    assert Flatten([payloads[k]]) == payloads[k] + Flatten([]);
    assert payloads[k] + [] == payloads[k];
  }

  lemma FlattenPrefix(payloads: seq<bytes>, k: nat)
    requires k <= |payloads|
    ensures Flatten(payloads[..k]) <= Flatten(payloads)
  {
    assert payloads == payloads[..k] + payloads[k..];
    FlattenAppend(payloads[..k], payloads[k..]);
  }

  function Payloads(log: seq<Signing>): (r: seq<bytes>)
    ensures |r| == |log|
    ensures forall i :: 0 <= i < |log| ==> r[i] == log[i].data
  {
    seq(|log|, i requires 0 <= i < |log| => log[i].data)
  }

  /** What a verifier may take: the `signed` messages under its key, from its counter on. */
  ghost predicate Bound(v: Verifier, table: Table, signed: seq<bytes>) {
    |signed| < 0x1_0000_0000_0000_0000 && v.counter <= |signed| && OnlySigned(table, v.publicKey, signed)
  }

  /** One frame: at most the next signed message is taken, and a refusal changes nothing. */
  lemma ReceiveTakesNext(t: Transport, frame: bytes, table: Table, reading: (nat, nat), signed: seq<bytes>)
    requires Bound(t.verifier, table, signed)
    ensures var r := Receive(t, frame, table, reading);
            var v := r.transport.verifier;
            && v.publicKey == t.verifier.publicKey && r.transport.reader == t.reader
            && t.verifier.counter <= v.counter <= |signed|
            && Flatten(signed[..v.counter]) == Flatten(signed[..t.verifier.counter]) +
                 (if r.outcome == Some(Filled) then r.transport.readBuffer else [])
            && (r.outcome == Some(FillFailed) ==> r.transport == t)
            && (r.outcome == Some(Filled) ==> r.transport.readOffset == 0)
            && (r.outcome != Some(Filled) ==>
                  r.transport.readBuffer == t.readBuffer && r.transport.readOffset == t.readOffset)
  {
    hide VerifyPacket, Hdlc.Decoded, DeserializeHandshake, OnlySigned;
    var same := Flatten(signed[..t.verifier.counter]);
    assert same + [] == same;
    match Hdlc.Decoded(frame)
    case Err(_) =>
    case Ok(wire) =>
      if wire != [] && wire[0] == PAYLOAD_TYPE {
        var p := Presented(table, wire[1..], reading.0, reading.1);
        VerifyTakesNext(t.verifier, p, signed);
        if t.verifier.counter < |signed| {
          FlattenTake(signed, t.verifier.counter);
        }
      } else if wire != [] {
        HandshakeIsNoPayload(wire, NO_KEYS, table);
      }
  }

  lemma HandshakeIsNoPayload(wire: bytes, keys: Keys, table: Table)
    requires wire != []
    ensures var p := DeserializeHandshake(wire, keys, table); p.Ok? ==> !p.value.Payload?
  {
    hide DecodeServerHello, DecodeServerComplete, VerifyConnSigned, PeekClientHello;
  }

  lemma {:induction false} FillTakesNext(t: Transport, script: seq<ReadPoll>, table: Table, clock: Clock,
      signed: seq<bytes>)
    requires Bound(t.verifier, table, signed)
    ensures var step := Fill(t, script, table, clock);
            var v := step.transport.verifier;
            && v.publicKey == t.verifier.publicKey
            && t.verifier.counter <= v.counter <= |signed|
            && Flatten(signed[..v.counter]) == Flatten(signed[..t.verifier.counter]) +
                 (if step.outcome == Filled then step.transport.readBuffer else [])
    decreases |script|
  {
    hide ReadFrame, Receive, OnlySigned, Flatten;
    var same := Flatten(signed[..t.verifier.counter]);
    assert same + [] == same;
    var step := ReadFrame(t.reader, script);
    if step.outcome.Frame? {
      var next := t.(reader := step.reader);
      ReceiveTakesNext(next, step.outcome.frame, table, clock(|step.rest|), signed);
      var received := Receive(next, step.outcome.frame, table, clock(|step.rest|));
      if received.outcome.None? {
        FrameConsumes(t.reader, script);
        FillTakesNext(received.transport, step.rest, table, clock, signed);
      }
    }
  }

  /** Delivered and unread bytes are what the first so many signed messages hold. */
  ghost predicate ReadSide(t: Transport, delivered: bytes, signed: seq<bytes>) {
    && t.Valid() && t.verifier.counter <= |signed|
    && delivered + t.Unread() == Flatten(signed[..t.verifier.counter])
  }

  lemma TakeConserves(t: Transport, room: nat)
    requires t.Valid()
    ensures var (outcome, after) := TakeUnread(t, room);
            && outcome.Read? && after.Valid() && outcome.data + after.Unread() == t.Unread()
            && after == t.(readBuffer := after.readBuffer, readOffset := after.readOffset)
            && (outcome.data == [] <==> room == 0 || t.Unread() == [])
  {
    var (outcome, after) := TakeUnread(t, room);
    var end := t.readOffset + |outcome.data|;
    assert t.readBuffer[t.readOffset..] == t.readBuffer[t.readOffset..end] + t.readBuffer[end..];
  }

  /** Whatever arrives and however the read ends, error or not. */
  lemma ReadKeepsReadSide(t: Transport, room: nat, script: seq<ReadPoll>, table: Table, clock: Clock,
      signed: seq<bytes>, delivered: bytes)
    requires ReadSide(t, delivered, signed) && Bound(t.verifier, table, signed)
    ensures var step := ReadPayload(t, room, script, table, clock);
            var got := if step.outcome.Read? then step.outcome.data else [];
            && ReadSide(step.transport, delivered + got, signed)
            && step.transport.verifier.publicKey == t.verifier.publicKey
            && t.verifier.counter <= step.transport.verifier.counter
  {
    hide Fill, OnlySigned, Flatten, TakeUnread;
    var step := ReadPayload(t, room, script, table, clock);
    var got := if step.outcome.Read? then step.outcome.data else [];
    assert delivered + [] == delivered;
    if room != 0 {
      if t.readOffset != |t.readBuffer| {
        TakeConserves(t, room);
        assert delivered + (got + step.transport.Unread()) == (delivered + got) + step.transport.Unread();
      } else {
        FillKeepsValid(t, script, table, clock);
        FillTakesNext(t, script, table, clock, signed);
        var filled := Fill(t, script, table, clock);
        assert t.Unread() == [];
        assert filled.outcome == Filled ==> filled.transport.Unread() == filled.transport.readBuffer;
        if filled.outcome == Filled {
          TakeConserves(filled.transport, room);
          assert delivered + (got + step.transport.Unread()) == (delivered + got) + step.transport.Unread();
        } else {
          assert step.transport.Unread() == [];
        }
      }
    }
  }

  /** A run in which the peer's key has signed nothing but `signed`. */
  ghost predicate Adversarial(ops: seq<Op>, key: Bytes32, signed: seq<bytes>)
    requires |signed| < 0x1_0000_0000_0000_0000
  {
    forall op :: op in ops && op.ReadOp? ==> OnlySigned(op.table, key, signed)
  }

  lemma StepKeepsReadSide(e: Endpoint, op: Op, signed: seq<bytes>)
    requires ReadSide(e.transport, e.delivered, signed)
    requires op.ReadOp? ==> Bound(e.transport.verifier, op.table, signed)
    ensures ReadSide(Step(e, op).transport, Step(e, op).delivered, signed)
  {
    hide ReadPayload, Drain, Flatten, Queue;
    match op
    case Arrive(_) =>
    case ReadOp(room, table, clock) =>
      ReadKeepsReadSide(e.transport, room, e.incoming, table, clock, signed, e.delivered);
    case WriteOp(data, signature, writes) =>
      DrainConserves(e.transport, writes);
      QueueKeeps(Drain(e.transport, writes).transport, data, signature);
    case KeepaliveOp(signature, writes) =>
      DrainConserves(e.transport, writes);
      QueueKeeps(Drain(e.transport, writes).transport, [], signature);
    case FlushOp(writes) => DrainConserves(e.transport, writes);
  }

  /** A step keeps the peer's key, and signs at most one payload. */
  lemma StepKeepsKey(e: Endpoint, op: Op)
    requires e.transport.Valid()
    ensures var next := Step(e, op);
            && next.transport.verifier.publicKey == e.transport.verifier.publicKey
            && (next.log == e.log || next.log == e.log + [next.log[|next.log| - 1]])
            && (next.log != e.log ==>
                  (op.WriteOp? || op.KeepaliveOp?) && next.log[|next.log| - 1].signature == op.signature)
  {
    hide Drain, Fill, TakeUnread, Queue;
    match op
    case Arrive(_) =>
    case ReadOp(room, table, clock) =>
      FillKeepsKey(e.transport, e.incoming, table, clock);
      if room != 0 {
        if e.transport.readOffset != |e.transport.readBuffer| {
          TakeConserves(e.transport, room);
        } else {
          var filled := Fill(e.transport, e.incoming, table, clock);
          FillKeepsValid(e.transport, e.incoming, table, clock);
          if filled.outcome == Filled {
            TakeConserves(filled.transport, room);
          }
        }
      }
    case WriteOp(data, signature, writes) =>
      DrainConserves(e.transport, writes);
      QueueKeeps(Drain(e.transport, writes).transport, data, signature);
      assert e.log + [] == e.log;
    case KeepaliveOp(signature, writes) =>
      DrainConserves(e.transport, writes);
      QueueKeeps(Drain(e.transport, writes).transport, [], signature);
      assert e.log + [] == e.log;
    case FlushOp(writes) => DrainConserves(e.transport, writes);
  }

  lemma {:induction false} FillKeepsKey(t: Transport, script: seq<ReadPoll>, table: Table, clock: Clock)
    ensures Fill(t, script, table, clock).transport.verifier.publicKey == t.verifier.publicKey
    decreases |script|
  {
    hide ReadFrame, Receive;
    var step := ReadFrame(t.reader, script);
    if step.outcome.Frame? {
      var next := t.(reader := step.reader);
      ReceiveKeepsKey(next, step.outcome.frame, table, clock(|step.rest|));
      var received := Receive(next, step.outcome.frame, table, clock(|step.rest|));
      if received.outcome.None? {
        FrameConsumes(t.reader, script);
        FillKeepsKey(received.transport, step.rest, table, clock);
      }
    }
  }

  lemma ReceiveKeepsKey(t: Transport, frame: bytes, table: Table, reading: (nat, nat))
    ensures Receive(t, frame, table, reading).transport.verifier.publicKey == t.verifier.publicKey
  {
    hide Hdlc.Decoded, DeserializeHandshake;
  }

  /** On any stream at all, delivered bytes are a prefix of what the peer signed, even
      when reads go on after errors. */
  lemma {:induction false} OnlySignedBytesAreDelivered(e: Endpoint, ops: seq<Op>, signed: seq<bytes>)
    requires |signed| < 0x1_0000_0000_0000_0000
    requires ReadSide(e.transport, e.delivered, signed)
    requires Adversarial(ops, e.transport.verifier.publicKey, signed)
    ensures ReadSide(Steps(e, ops).transport, Steps(e, ops).delivered, signed)
    ensures Steps(e, ops).delivered <= Flatten(signed)
    decreases |ops|
  {
    hide Step, Flatten, OnlySigned;
    if ops == [] {
      FlattenPrefix(signed, e.transport.verifier.counter);
    } else {
      StepKeepsValid(e, ops[0]);
      StepKeepsKey(e, ops[0]);
      StepKeepsReadSide(e, ops[0], signed);
      OnlySignedBytesAreDelivered(Step(e, ops[0]), ops[1..], signed);
    }
  }

  lemma QueueKeeps(t: Transport, data: bytes, signature: bytes)
    ensures var q := Queue(t, data, signature);
            q == t.(writeBuffer := q.writeBuffer, writeOffset := 0, signCounter := NextCounter(t.signCounter))
  {
  }

  // ------------------------------------------------------------ what zero bytes mean

  /** The last poll taken was the end of the stream, with no frame begun. */
  predicate EndsBetweenFrames(script: seq<ReadPoll>, rest: seq<ReadPoll>, r: Reader) {
    var taken := |script| - |rest|;
    0 < taken && script[taken - 1] == Eof && !r.inFrame
  }

  lemma {:induction false} NoFrameExactly(r: Reader, script: seq<ReadPoll>)
    ensures var step := ReadFrame(r, script);
            && |step.rest| <= |script| && step.rest == script[|script| - |step.rest|..]
            && (step.outcome == NoFrame <==> EndsBetweenFrames(script, step.rest, step.reader))
    decreases |script|
  {
    if script != [] {
      var next := React(r, script[0]);
      if next.outcome.None? {
        NoFrameExactly(next.reader, script[1..]);
      }
    }
  }

  lemma {:induction false} EndedExactly(t: Transport, script: seq<ReadPoll>, table: Table, clock: Clock)
    ensures var step := Fill(t, script, table, clock);
            && |step.rest| <= |script| && step.rest == script[|script| - |step.rest|..]
            && (step.outcome == Ended <==> EndsBetweenFrames(script, step.rest, step.transport.reader))
    decreases |script|
  {
    hide ReadFrame, Receive;
    var step := ReadFrame(t.reader, script);
    NoFrameExactly(t.reader, script);
    if step.outcome.Frame? {
      var next := t.(reader := step.reader);
      var received := Receive(next, step.outcome.frame, table, clock(|step.rest|));
      ReceiveKeepsReader(next, step.outcome.frame, table, clock(|step.rest|));
      FrameConsumes(t.reader, script);
      FrameIsNoEnd(t.reader, script);
      if received.outcome.None? {
        EndedExactly(received.transport, step.rest, table, clock);
        var final := Fill(received.transport, step.rest, table, clock);
        var taken := |step.rest| - |final.rest|;
        assert taken > 0 ==> step.rest[taken - 1] == script[|script| - |final.rest| - 1];
      }
    }
  }

  lemma ReceiveKeepsReader(t: Transport, frame: bytes, table: Table, reading: (nat, nat))
    ensures Receive(t, frame, table, reading).transport.reader == t.reader
    ensures Receive(t, frame, table, reading).outcome in {None, Some(Filled), Some(FillFailed)}
  {
    hide Deserialize, Hdlc.Decoded;
  }

  lemma {:induction false} FrameIsNoEnd(r: Reader, script: seq<ReadPoll>)
    requires ReadFrame(r, script).outcome.Frame?
    ensures var step := ReadFrame(r, script);
            |step.rest| < |script| && script[|script| - |step.rest| - 1].Byte?
    decreases |script|
  {
    var next := React(r, script[0]);
    if next.outcome.None? {
      FrameIsNoEnd(next.reader, script[1..]);
    }
  }

  /** A successful read of zero bytes into a buffer with room means exactly that all read
      before was handed out and the stream then ended between frames: no number of
      keepalives looks like that. */
  lemma ZeroBytesMeanTheEnd(t: Transport, room: nat, script: seq<ReadPoll>, table: Table, clock: Clock)
    requires t.Valid() && room > 0
    ensures var step := ReadPayload(t, room, script, table, clock);
            step.outcome == Read([]) <==>
            t.Unread() == [] && EndsBetweenFrames(script, step.rest, step.transport.reader)
  {
    hide Fill, TakeUnread;
    if t.Unread() != [] {
      TakeConserves(t, room);
    } else {
      EndedExactly(t, script, table, clock);
      FillKeepsValid(t, script, table, clock);
      var filled := Fill(t, script, table, clock);
      if filled.outcome == Filled {
        TakeConserves(filled.transport, room);
      }
    }
  }

  // --------------------------------------------------------------------- idle for ever

  /** No reading of the clock comes before `now`. */
  ghost predicate ClocksFrom(ops: seq<Op>, now: nat) {
    forall k :: 0 <= k < |ops| && ops[k].ReadOp? ==> ClockFrom(ops[k].clock, now)
  }

  ghost predicate ClockFrom(clock: Clock, now: nat) {
    forall n: nat :: clock(n).0 >= now
  }

  lemma IdleReceive(t: Transport, frame: bytes, table: Table, reading: (nat, nat))
    requires Elapsed(t.verifier.lastSuccess, reading.0) > MAX_CONNECTION_IDLE
    ensures Receive(t, frame, table, reading) == Received(Some(FillFailed), t)
  {
    hide Hdlc.Decoded, DeserializeHandshake, Elapsed;
    match Hdlc.Decoded(frame)
    case Err(_) =>
    case Ok(wire) =>
      if wire != [] {
        HandshakeIsNoPayload(wire, NO_KEYS, table);
      }
  }

  lemma IdleFill(t: Transport, script: seq<ReadPoll>, table: Table, clock: Clock, now: nat)
    requires Elapsed(t.verifier.lastSuccess, now) > MAX_CONNECTION_IDLE && ClockFrom(clock, now)
    ensures var step := Fill(t, script, table, clock);
            step.outcome != Filled && step.transport.verifier == t.verifier
  {
    hide ReadFrame, Receive;
    var step := ReadFrame(t.reader, script);
    if step.outcome.Frame? {
      IdleReceive(t.(reader := step.reader), step.outcome.frame, table, clock(|step.rest|));
    }
  }

  lemma IdleStep(e: Endpoint, op: Op, now: nat)
    requires e.transport.Valid() && Elapsed(e.transport.verifier.lastSuccess, now) > MAX_CONNECTION_IDLE
    requires op.ReadOp? ==> ClockFrom(op.clock, now)
    ensures var next := Step(e, op);
            && next.transport.Valid() && next.transport.verifier == e.transport.verifier
            && e.delivered <= next.delivered
            && next.delivered + next.transport.Unread() == e.delivered + e.transport.Unread()
  {
    hide Fill, TakeUnread, Drain, Queue;
    var t := e.transport;
    assert e.delivered + [] == e.delivered;
    StepKeepsValid(e, op);
    match op
    case Arrive(_) =>
    case ReadOp(room, table, clock) =>
      if room != 0 {
        if t.readOffset != |t.readBuffer| {
          TakeConserves(t, room);
          Associates(e.delivered, TakeUnread(t, room).0.data, TakeUnread(t, room).1.Unread());
        } else {
          IdleFill(t, e.incoming, table, clock, now);
          FillKeepsValid(t, e.incoming, table, clock);
        }
      }
    case WriteOp(data, signature, writes) =>
      DrainConserves(t, writes);
      QueueKeeps(Drain(t, writes).transport, data, signature);
    case KeepaliveOp(signature, writes) =>
      DrainConserves(t, writes);
      QueueKeeps(Drain(t, writes).transport, [], signature);
    case FlushOp(writes) => DrainConserves(t, writes);
  }

  /** Once idle, a payload stream never accepts anything again, whatever arrives and however
      often it is read: the application gets what was buffered already, and no more. */
  lemma {:induction false} IdleStreamsDeliverNoMore(e: Endpoint, ops: seq<Op>, now: nat)
    requires e.transport.Valid() && Elapsed(e.transport.verifier.lastSuccess, now) > MAX_CONNECTION_IDLE
    requires ClocksFrom(ops, now)
    ensures var end := Steps(e, ops);
            && end.transport.verifier == e.transport.verifier && e.delivered <= end.delivered
            && end.delivered + end.transport.Unread() == e.delivered + e.transport.Unread()
            && (e.transport.Unread() == [] ==> end.delivered == e.delivered)
    decreases |ops|
  {
    hide Step, Elapsed, ClockFrom;
    if ops != [] {
      IdleStep(e, ops[0], now);
      IdleStreamsDeliverNoMore(Step(e, ops[0]), ops[1..], now);
    }
  }
}
