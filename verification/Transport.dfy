/** The payload stream of src/transport.rs: packets in frames, in both directions. */
module Transport {
  import opened Bytes
  import opened Wrappers
  import opened FrameReader
  import opened Packets
  import opened Signatures
  import FrameStreams
  import Hdlc

  /** The readings of the clock: at the idle check and after the signature check of the
      frame that leaves the given number of polls to come. */
  type Clock = nat -> (nat, nat)

  /** Everything a payload stream keeps, except the stream underneath. */
  datatype Transport = Transport(
    signCounter: u64,
    verifier: Verifier,
    reader: Reader,
    readBuffer: bytes,
    readOffset: nat,
    writeBuffer: bytes,
    writeOffset: nat)
  {
    ghost predicate Valid() {
      reader.Valid() && readOffset <= |readBuffer| && writeOffset <= |writeBuffer|
    }

    function Unread(): bytes
      requires Valid()
    {
      readBuffer[readOffset..]
    }

    function Undrained(): bytes
      requires Valid()
    {
      writeBuffer[writeOffset..]
    }
  }

  function Fresh(peerKey: Bytes32, now: nat): Transport {
    Transport(0, Verifier(peerKey, 0, now), IDLE, [], 0, [], 0)
  }

  // -------------------------------------------------------------------------- reading

  /** `Filled` and `Ended` are the source's `Ok(true)` and `Ok(false)`. */
  datatype FillOutcome = FillPending | Filled | Ended | FillFailed

  datatype Received = Received(outcome: Option<FillOutcome>, transport: Transport)

  /** One whole frame; no outcome means that the loop goes on. */
  function Receive(t: Transport, frame: bytes, table: Table, reading: (nat, nat)): Received {
    match Hdlc.Decoded(frame)
    case Err(_) => Received(Some(FillFailed), t)
    case Ok(wire) =>
      var parsed := Deserialize(wire, NO_KEYS, Some(t.verifier), table, reading.0, reading.1);
      var t := t.(verifier := parsed.verifier.value);
      if parsed.packet.Ok? && parsed.packet.value.Payload? then
        var data := parsed.packet.value.data;
        if data == [] then Received(None, t)
        else Received(Some(Filled), t.(readBuffer := data, readOffset := 0))
      else Received(Some(FillFailed), t)
  }

  datatype FillStep = FillStep(outcome: FillOutcome, transport: Transport, rest: seq<ReadPoll>)

  /** It ends on every finite supply of polls. */
  function Fill(t: Transport, script: seq<ReadPoll>, table: Table, clock: Clock): (step: FillStep)
    decreases |script|
  {
    var step := ReadFrame(t.reader, script);
    var t := t.(reader := step.reader);
    match step.outcome
    case Suspended => FillStep(FillPending, t, step.rest)
    case NoFrame => FillStep(Ended, t, step.rest)
    case Frame(frame) =>
      var received := Receive(t, frame, table, clock(|step.rest|));
      if received.outcome.Some? then FillStep(received.outcome.value, received.transport, step.rest)
      else Fill(received.transport, step.rest, table, clock)
    case _ => FillStep(FillFailed, t, step.rest)
  }

  datatype ReadOutcome = ReadPending | Read(data: bytes) | ReadFailed

  datatype ReadPayloadStep = ReadPayloadStep(outcome: ReadOutcome, transport: Transport, rest: seq<ReadPoll>)

  /** Copy into a caller's buffer with room for `room` bytes. */
  function TakeUnread(t: Transport, room: nat): (ReadOutcome, Transport)
    requires t.Valid()
  {
    var n := if |t.Unread()| <= room then |t.Unread()| else room;
    var end := t.readOffset + n;
    (Read(t.readBuffer[t.readOffset..end]),
     if end == |t.readBuffer| then t.(readBuffer := [], readOffset := 0) else t.(readOffset := end))
  }

  function ReadPayload(t: Transport, room: nat, script: seq<ReadPoll>, table: Table, clock: Clock): ReadPayloadStep
    requires t.Valid()
  {
    if room == 0 then ReadPayloadStep(Read([]), t, script)
    else if t.readOffset != |t.readBuffer| then
      var (outcome, t) := TakeUnread(t, room);
      ReadPayloadStep(outcome, t, script)
    else
      FillKeepsValid(t, script, table, clock);
      var step := Fill(t, script, table, clock);
      match step.outcome
      case FillPending => ReadPayloadStep(ReadPending, step.transport, step.rest)
      case FillFailed => ReadPayloadStep(ReadFailed, step.transport, step.rest)
      case Ended => ReadPayloadStep(Read([]), step.transport, step.rest)
      case Filled =>
        var (outcome, t) := TakeUnread(step.transport, room);
        ReadPayloadStep(outcome, t, step.rest)
  }

  /** What a fill may change: the reader, the verifier and, if it succeeds, the buffer. */
  lemma {:induction false} FillKeepsValid(t: Transport, script: seq<ReadPoll>, table: Table, clock: Clock)
    requires t.Valid()
    ensures var step := Fill(t, script, table, clock);
            && step.transport.Valid()
            && (step.outcome == Filled ==> step.transport.readBuffer != [] && step.transport.readOffset == 0)
            && (step.outcome != Filled ==>
                  step.transport.readBuffer == t.readBuffer && step.transport.readOffset == t.readOffset)
            && step.transport.writeBuffer == t.writeBuffer && step.transport.writeOffset == t.writeOffset
            && step.transport.signCounter == t.signCounter
    decreases |script|
  {
    hide ReadFrame, Deserialize, Hdlc.Decoded;
    var step := ReadFrame(t.reader, script);
    FrameStreams.ReadFrameKeepsValid(t.reader, script);
    if step.outcome.Frame? {
      var received := Receive(t.(reader := step.reader), step.outcome.frame, table, clock(|step.rest|));
      if received.outcome.None? {
        FrameConsumes(t.reader, script);
        FillKeepsValid(received.transport, step.rest, table, clock);
      }
    }
  }

  lemma FrameConsumes(r: Reader, script: seq<ReadPoll>)
    requires ReadFrame(r, script).outcome != Suspended
    ensures |ReadFrame(r, script).rest| < |script|
  {
  }

  // -------------------------------------------------------------------------- writing

  datatype DrainOutcome = DrainPending | Drained | DrainFailed

  datatype DrainStep = DrainStep(outcome: DrainOutcome, transport: Transport, sent: bytes, rest: seq<WritePoll>)

  function Drain(t: Transport, writes: seq<WritePoll>): DrainStep
    requires t.Valid()
    decreases |t.writeBuffer| - t.writeOffset
  {
    if t.writeOffset == |t.writeBuffer| then
      DrainStep(Drained, t.(writeBuffer := [], writeOffset := 0), [], writes)
    else
      var poll, rest := FirstWrite(writes, |t.Undrained()|), Tail(writes);
      match poll
      case WritePending => DrainStep(DrainPending, t, [], rest)
      case WriteFailed => DrainStep(DrainFailed, t, [], rest)
      case Wrote(n) =>
        if n == 0 then DrainStep(DrainFailed, t, [], rest)
        else
          var step := Drain(t.(writeOffset := t.writeOffset + n), rest);
          step.(sent := t.Undrained()[..n] + step.sent)
  }

  lemma DrainTakes(t: Transport, writes: seq<WritePoll>)
    requires t.Valid() && t.writeOffset < |t.writeBuffer|
    ensures var poll, step := FirstWrite(writes, |t.Undrained()|), Drain(t, writes);
            if poll == WritePending then step == DrainStep(DrainPending, t, [], Tail(writes))
            else if poll == WriteFailed || poll == Wrote(0) then step == DrainStep(DrainFailed, t, [], Tail(writes))
            else
              var next := Drain(t.(writeOffset := t.writeOffset + poll.n), Tail(writes));
              step == next.(sent := t.Undrained()[..poll.n] + next.sent)
  {
  }

  lemma DrainsNothing(t: Transport, writes: seq<WritePoll>)
    requires t.Valid() && t.writeOffset == |t.writeBuffer|
    ensures Drain(t, writes) == DrainStep(Drained, t.(writeBuffer := [], writeOffset := 0), [], writes)
  {
  }

  /** `step`, with `sent` already out, is what is left of `goal`. */
  ghost predicate Along(goal: DrainStep, start: bytes, step: DrainStep, sent: bytes) {
    && step.outcome == goal.outcome && step.transport == goal.transport && step.rest == goal.rest
    && sent + step.sent == start + goal.sent
  }

  lemma AlongNext(goal: DrainStep, start: bytes, step: DrainStep, sent: bytes, taken: bytes, next: DrainStep)
    requires Along(goal, start, step, sent) && step == next.(sent := taken + next.sent)
    ensures Along(goal, start, next, sent + taken)
  {
    assert sent + (taken + next.sent) == (sent + taken) + next.sent;
  }

  /** What a flush or shutdown comes to, once drained. */
  function FlushOutcome(poll: WritePoll): DrainOutcome {
    match poll
    case WritePending => DrainPending
    case WriteFailed => DrainFailed
    case Wrote(_) => Drained
  }

  /** Drain, then flush or shut down the stream below. */
  function FlushPayload(t: Transport, writes: seq<WritePoll>): DrainStep
    requires t.Valid()
  {
    var step := Drain(t, writes);
    if step.outcome == Drained then
      step.(outcome := FlushOutcome(FirstFlush(step.rest)), rest := Tail(step.rest))
    else step
  }

  datatype WriteOutcome = NotWritten | Written(n: nat) | WriteError

  datatype WritePayloadStep = WritePayloadStep(outcome: WriteOutcome, transport: Transport, sent: bytes,
      rest: seq<WritePoll>)

  /** The next signed payload, framed, becomes the write buffer. */
  function Queue(t: Transport, data: bytes, signature: bytes): Transport {
    t.(writeBuffer := Hdlc.Encoded(PayloadWire(data, signature)), writeOffset := 0,
       signCounter := NextCounter(t.signCounter))
  }

  /** `signature` is what the library returns for the current counter and the data. */
  function WritePayload(t: Transport, data: bytes, signature: bytes, writes: seq<WritePoll>): WritePayloadStep
    requires t.Valid()
  {
    var step := Drain(t, writes);
    match step.outcome
    case DrainPending => WritePayloadStep(NotWritten, step.transport, step.sent, step.rest)
    case DrainFailed => WritePayloadStep(WriteError, step.transport, step.sent, step.rest)
    case Drained =>
      if data == [] then WritePayloadStep(Written(0), step.transport, step.sent, step.rest)
      else WritePayloadStep(Written(|data|), Queue(step.transport, data, signature), step.sent, step.rest)
  }

  /** An empty payload, which a write never queues. */
  function QueueKeepalive(t: Transport, signature: bytes, writes: seq<WritePoll>): DrainStep
    requires t.Valid()
  {
    var step := Drain(t, writes);
    if step.outcome == Drained then step.(transport := Queue(step.transport, [], signature)) else step
  }

  // ---------------------------------------------------------------------- the program

  class PayloadStream {
    const stream: ByteStream
    const packetSign: PacketSign
    const peerPacketVerify: PacketVerify
    const frameReader: AsyncFrameReader
    var readBuffer: bytes
    var readOffset: nat
    var writeBuffer: bytes
    var writeOffset: nat

    constructor (stream: ByteStream, packetSign: PacketSign, peerPacketVerify: PacketVerify)
      ensures this.stream == stream && this.packetSign == packetSign && this.peerPacketVerify == peerPacketVerify
      ensures fresh(frameReader)
      ensures Valid() && State() == Transport(packetSign.signCounter, peerPacketVerify.State(), IDLE, [], 0, [], 0)
    {
      this.stream, this.packetSign, this.peerPacketVerify := stream, packetSign, peerPacketVerify;
      frameReader := new AsyncFrameReader();
      readBuffer, readOffset, writeBuffer, writeOffset := [], 0, [], 0;
    }

    function State(): Transport
      reads this, packetSign, peerPacketVerify, frameReader
    {
      Transport(packetSign.signCounter, peerPacketVerify.State(), frameReader.State(),
                readBuffer, readOffset, writeBuffer, writeOffset)
    }

    ghost predicate Valid()
      reads this, packetSign, peerPacketVerify, frameReader
    {
      State().Valid()
    }

    method PollFillReadBuffer(table: Table, clock: Clock) returns (outcome: FillOutcome)
      requires Valid()
      modifies this`readBuffer, this`readOffset, peerPacketVerify, frameReader, stream`incoming
      ensures FillStep(outcome, State(), stream.incoming)
           == Fill(old(State()), old(stream.incoming), table, clock)
      ensures Valid()
    {
      hide ReadFrame, Deserialize, Hdlc.Decoded;
      ghost var goal := Fill(State(), stream.incoming, table, clock);
      FillKeepsValid(State(), stream.incoming, table, clock);
      while true
        invariant Fill(State(), stream.incoming, table, clock) == goal
        decreases |stream.incoming|
      {
        ghost var before, script := State(), stream.incoming;
        var polled := frameReader.PollReadFrame(stream);
        assert State() == before.(reader := frameReader.State());
        assert ReadFrame(before.reader, script) == ReadStep(polled, frameReader.State(), stream.incoming);
        match polled
        case Suspended => return FillPending;
        case NoFrame => return Ended;
        case UnexpectedEof => return FillFailed;
        case TooLong => return FillFailed;
        case StreamFailed => return FillFailed;
        case Frame(frame) =>
          FrameConsumes(before.reader, script);
          var (checkedAt, doneAt) := clock(|stream.incoming|);
          var decoded := Hdlc.Decode(frame);
          if decoded.Err? {
            return FillFailed;
          }
          ghost var t := State();
          var packet := DeserializePacket(decoded.value, NO_KEYS, peerPacketVerify, table, checkedAt, doneAt);
          assert State() == t.(verifier := peerPacketVerify.State());
          if packet.Ok? && packet.value.Payload? {
            var data := packet.value.data;
            if data == [] {
              continue;
            }
            readBuffer := data;
            readOffset := 0;
            return Filled;
          }
          return FillFailed;
      }
    }

    /** Into a buffer with room for `room` bytes; the bytes copied are the outcome. */
    method PollReadPayload(room: nat, table: Table, clock: Clock) returns (outcome: ReadOutcome)
      requires Valid()
      modifies this`readBuffer, this`readOffset, peerPacketVerify, frameReader, stream`incoming
      ensures ReadPayloadStep(outcome, State(), stream.incoming)
           == ReadPayload(old(State()), room, old(stream.incoming), table, clock)
      ensures Valid()
    {
      hide Fill;
      if room == 0 {
        return Read([]);
      }
      if readOffset == |readBuffer| {
        FillKeepsValid(State(), stream.incoming, table, clock);
        var filled := PollFillReadBuffer(table, clock);
        match filled {
          case FillPending => return ReadPending;
          case FillFailed => return ReadFailed;
          case Ended => return Read([]);
          case Filled =>
        }
      }
      var available := |readBuffer| - readOffset;
      var toCopy := if available <= room then available else room;
      outcome := Read(readBuffer[readOffset..readOffset + toCopy]);
      readOffset := readOffset + toCopy;
      if readOffset == |readBuffer| {
        readBuffer := [];
        readOffset := 0;
      }
    }

    method PollDrainWriteBuffer() returns (outcome: DrainOutcome)
      requires Valid()
      modifies this`writeBuffer, this`writeOffset, stream`writes, stream`sent
      ensures Valid()
      ensures var step := Drain(old(State()), old(stream.writes));
              && outcome == step.outcome && State() == step.transport
              && stream.sent == old(stream.sent) + step.sent && stream.writes == step.rest
    {
      hide Drain, FirstWrite;
      ghost var start, goal := stream.sent, Drain(State(), stream.writes);
      while writeOffset < |writeBuffer|
        invariant Valid()
        invariant Along(goal, start, Drain(State(), stream.writes), stream.sent)
        decreases |writeBuffer| - writeOffset
      {
        DrainTakes(State(), stream.writes);
        ghost var t, before, step := State(), stream.sent, Drain(State(), stream.writes);
        var written := stream.PollWrite(writeBuffer[writeOffset..]);
        match written
        case WritePending => return DrainPending;
        case WriteFailed => return DrainFailed;
        case Wrote(n) =>
          if n == 0 {
            return DrainFailed;
          }
          writeOffset := writeOffset + n;
          assert State() == t.(writeOffset := writeOffset);
          AlongNext(goal, start, step, before, t.Undrained()[..n], Drain(State(), stream.writes));
      }
      DrainsNothing(State(), stream.writes);
      if writeOffset == |writeBuffer| {
        writeBuffer := [];
        writeOffset := 0;
      }
      return Drained;
    }

    method PollFlushPayload() returns (outcome: DrainOutcome)
      requires Valid()
      modifies this`writeBuffer, this`writeOffset, stream`writes, stream`sent, stream`flushed
      ensures Valid()
      ensures var step := FlushPayload(old(State()), old(stream.writes));
              && outcome == step.outcome && State() == step.transport
              && stream.sent == old(stream.sent) + step.sent && stream.writes == step.rest
      ensures stream.flushed == old(stream.flushed) + if outcome == Drained then 1 else 0
    {
      hide Drain;
      outcome := PollDrainWriteBuffer();
      if outcome == Drained {
        var poll := stream.PollFlush();
        outcome := FlushOutcome(poll);
      }
    }

    method PollShutdownPayload() returns (outcome: DrainOutcome)
      requires Valid()
      modifies this`writeBuffer, this`writeOffset, stream`writes, stream`sent, stream`closed
      ensures Valid()
      ensures var step := FlushPayload(old(State()), old(stream.writes));
              && outcome == step.outcome && State() == step.transport
              && stream.sent == old(stream.sent) + step.sent && stream.writes == step.rest
      ensures stream.closed == old(stream.closed) + if outcome == Drained then 1 else 0
    {
      hide Drain;
      outcome := PollDrainWriteBuffer();
      if outcome == Drained {
        var poll := stream.PollShutdown();
        outcome := FlushOutcome(poll);
      }
    }

    /** `library` is the signature library, which the packet key is loaded into. */
    method PollWritePayload(buf: bytes, library: bytes -> bytes) returns (outcome: WriteOutcome)
      requires Valid()
      modifies this`writeBuffer, this`writeOffset, packetSign, stream`writes, stream`sent
      ensures Valid()
      ensures var signature := library(PacketSignatureInput(old(packetSign.signCounter), buf));
              var step := WritePayload(old(State()), buf, signature, old(stream.writes));
              && outcome == step.outcome && State() == step.transport
              && stream.sent == old(stream.sent) + step.sent && stream.writes == step.rest
    {
      hide Drain;
      var drained := PollDrainWriteBuffer();
      if drained == DrainPending {
        return NotWritten;
      }
      if drained == DrainFailed {
        return WriteError;
      }
      if buf == [] {
        return Written(0);
      }
      var wire := SerializePacketSigned(Payload(buf), packetSign, library);
      writeBuffer := Hdlc.Encode(wire.value);
      writeOffset := 0;
      return Written(|buf|);
    }

    method PollQueueKeepalive(library: bytes -> bytes) returns (outcome: DrainOutcome)
      requires Valid()
      modifies this`writeBuffer, this`writeOffset, packetSign, stream`writes, stream`sent
      ensures Valid()
      ensures var signature := library(PacketSignatureInput(old(packetSign.signCounter), []));
              var step := QueueKeepalive(old(State()), signature, old(stream.writes));
              && outcome == step.outcome && State() == step.transport
              && stream.sent == old(stream.sent) + step.sent && stream.writes == step.rest
    {
      hide Drain;
      outcome := PollDrainWriteBuffer();
      if outcome != Drained {
        return;
      }
      var wire := SerializePacketSigned(Payload([]), packetSign, library);
      writeBuffer := Hdlc.Encode(wire.value);
      writeOffset := 0;
    }
  }
}
