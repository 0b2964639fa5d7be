/** One operation of a payload stream at a time: how much a read copies, which answers of
    the stream below a drain, a write or a flush takes, and what comes of them. */
module TransportLaws {
  import opened Bytes
  import opened Wrappers
  import opened FrameReader
  import opened Handshake
  import opened Packets
  import opened Signatures
  import opened Transport
  import opened TransportRuns
  import Hdlc

  // ---------------------------------------------------------------------------- reading

  function Min(a: nat, b: nat): nat { if a <= b then a else b }

  /** As much of `unread` as there is room for is copied, from its start, and the rest is
      kept. */
  predicate Copies(unread: bytes, room: nat, got: bytes, left: bytes) {
    var n := Min(room, |unread|);
    got == unread[..n] && left == unread[n..]
  }

  lemma TakeExactly(t: Transport, room: nat)
    requires t.Valid()
    ensures var (outcome, after) := TakeUnread(t, room);
            && outcome.Read? && after.Valid() && Copies(t.Unread(), room, outcome.data, after.Unread())
            && after == t.(readBuffer := after.readBuffer, readOffset := after.readOffset)
  {
    var (outcome, after) := TakeUnread(t, room);
    var n := Min(room, |t.Unread()|);
    assert t.readBuffer[t.readOffset..][..n] == t.readBuffer[t.readOffset..t.readOffset + n];
    assert t.readBuffer[t.readOffset..][n..] == t.readBuffer[t.readOffset + n..];
  }

  /** A read into no room does nothing. One with room copies what is buffered, without
      looking at the stream; with nothing buffered it fills once, and copies what that
      brought. Never more than there is room for, never less than it could. */
  lemma ReadExactly(t: Transport, room: nat, script: seq<ReadPoll>, table: Table, clock: Clock)
    requires t.Valid()
    ensures var step, filled := ReadPayload(t, room, script, table, clock), Fill(t, script, table, clock);
            && step.transport.Valid() && filled.transport.Valid()
            && (step.outcome.Read? ==> |step.outcome.data| <= room)
            && (room == 0 ==> step == ReadPayloadStep(Read([]), t, script))
            && (room > 0 && t.Unread() != [] ==>
                  && step.outcome.Read? && step.rest == script
                  && Copies(t.Unread(), room, step.outcome.data, step.transport.Unread())
                  && step.transport.verifier == t.verifier && step.transport.reader == t.reader)
            && (room > 0 && t.Unread() == [] ==>
                  && step.rest == filled.rest
                  && (step.outcome == ReadPending <==> filled.outcome == FillPending)
                  && (step.outcome == ReadFailed <==> filled.outcome == FillFailed)
                  && (step.outcome == Read([]) <==> filled.outcome == Ended)
                  && (filled.outcome == Filled ==>
                        && step.outcome.Read?
                        && Copies(filled.transport.Unread(), room, step.outcome.data, step.transport.Unread())))
  {
    hide Fill, TakeUnread, Copies, Min;
    FillKeepsValid(t, script, table, clock);
    var filled := Fill(t, script, table, clock);
    TakeExactly(t, room);
    TakeExactly(filled.transport, room);
    CopiesFit(t, room);
    CopiesFit(filled.transport, room);
  }

  lemma CopiesFit(t: Transport, room: nat)
    requires t.Valid()
    ensures var got := TakeUnread(t, room).0;
            got.Read? && |got.data| <= room && (got.data == [] <==> room == 0 || t.Unread() == [])
  {
    TakeConserves(t, room);
  }

  /** The room that the reads among `ops` have, together. */
  function Rooms(ops: seq<Op>): nat {
    if ops == [] then 0 else (if ops[0].ReadOp? then ops[0].room else 0) + Rooms(ops[1..])
  }

  lemma StepFitsItsRoom(e: Endpoint, op: Op)
    requires e.transport.Valid()
    ensures var next := Step(e, op);
            && e.delivered <= next.delivered
            && |next.delivered| <= |e.delivered| + (if op.ReadOp? then op.room else 0)
  {
    hide ReadPayload, Drain, Fill, Queue;
    match op
    case Arrive(_) =>
    case ReadOp(room, table, clock) => ReadExactly(e.transport, room, e.incoming, table, clock);
    case WriteOp(_, _, _) =>
    case KeepaliveOp(_, _) =>
    case FlushOp(_) =>
  }

  /** Over any run: no operation delivers more than the room it was given, and none but a
      read delivers anything. */
  lemma {:induction false} ReadsFitTheirRoom(e: Endpoint, ops: seq<Op>)
    requires e.transport.Valid()
    ensures e.delivered <= Steps(e, ops).delivered
    ensures |Steps(e, ops).delivered| <= |e.delivered| + Rooms(ops)
    decreases |ops|
  {
    hide Step;
    if ops != [] {
      StepKeepsValid(e, ops[0]);
      StepFitsItsRoom(e, ops[0]);
      ReadsFitTheirRoom(Step(e, ops[0]), ops[1..]);
    }
  }

  /** A wire that the verifier takes: its type, 64 bytes of signature and the data, signed
      at the counter, within an hour (in nanoseconds) of the last success. */
  predicate Takes(v: Verifier, wire: bytes, table: Table, now: nat) {
    && |wire| >= 65 && wire[0] == 0x05 && now <= v.lastSuccess + 3_600_000_000_000
    && Triple(Key(Ed25519, v.publicKey), PacketSignatureInput(v.counter, wire[65..]), wire[1..65]) in table
  }

  /** One frame: a payload that the verifier takes moves the counter and sets the time of the
      last success; it is buffered, or skipped if it is empty. Any other frame is an error
      that changes nothing. */
  lemma ReceiveExactly(t: Transport, frame: bytes, table: Table, reading: (nat, nat))
    ensures var r := Receive(t, frame, table, reading);
            if Hdlc.Decoded(frame).Ok? && Takes(t.verifier, Hdlc.Decoded(frame).value, table, reading.0) then
              var data := Hdlc.Decoded(frame).value[65..];
              && r.transport.verifier ==
                   Verifier(t.verifier.publicKey, (t.verifier.counter + 1) % 0x1_0000_0000_0000_0000, reading.1)
              && r.transport.reader == t.reader
              && (if data == [] then
                    r.outcome == None && r.transport == t.(verifier := r.transport.verifier)
                  else
                    r.outcome == Some(Filled) && r.transport.readBuffer == data && r.transport.readOffset == 0)
            else r.outcome == Some(FillFailed) && r.transport == t
  {
    hide Hdlc.Decoded, DeserializeHandshake, PacketSignatureInput;
    if Hdlc.Decoded(frame).Ok? {
      var wire := Hdlc.Decoded(frame).value;
      if wire != [] && wire[0] == PAYLOAD_TYPE {
        if |wire| >= 65 {
          assert wire[1..][..64] == wire[1..65] && wire[1..][64..] == wire[65..];
        }
      } else if wire != [] {
        HandshakeIsNoPayload(wire, NO_KEYS, table);
      }
    }
  }

  /** `rest` is what is left of `script` after a stretch of bytes and at most one other poll;
      something was taken if anything was there. */
  ghost predicate Stops(script: seq<ReadPoll>, rest: seq<ReadPoll>) {
    && |rest| <= |script| && rest == script[|script| - |rest|..]
    && (forall i :: 0 <= i < |script| - |rest| - 1 ==> script[i].Byte?)
    && (|rest| == |script| ==> script == [])
  }

  /** The poll at which it stopped. */
  function LastTaken(script: seq<ReadPoll>, rest: seq<ReadPoll>): ReadPoll
    requires |rest| < |script|
  {
    script[|script| - |rest| - 1]
  }

  lemma StopsFurther(script: seq<ReadPoll>, middle: seq<ReadPoll>, rest: seq<ReadPoll>)
    requires Stops(script, middle) && |middle| < |script| && LastTaken(script, middle).Byte? && Stops(middle, rest)
    ensures Stops(script, rest) && |rest| < |script|
    ensures if |rest| < |middle| then LastTaken(script, rest) == LastTaken(middle, rest)
            else rest == [] && LastTaken(script, rest).Byte?
  {
    var n := |script| - |middle|;
    assert forall i :: 0 <= i < |middle| ==> middle[i] == script[n + i];
    assert forall i :: n <= i < |script| ==> script[i] == middle[i - n];
  }

  /** Where a fill stops: at the first poll that is no byte, or at a byte that ends a frame
      which is not skipped, or where there is no more; and what that poll makes of it. */
  lemma {:induction false} FillStops(t: Transport, script: seq<ReadPoll>, table: Table, clock: Clock)
    ensures var step := Fill(t, script, table, clock);
            && Stops(script, step.rest)
            && (script == [] ==> step.outcome == FillPending)
            && (script != [] ==>
                  match LastTaken(script, step.rest)
                  case Pending => step.outcome == FillPending
                  case Failed => step.outcome == FillFailed
                  case Eof => step.outcome == (if step.transport.reader.inFrame then FillFailed else Ended)
                  case Byte(_) =>
                    step.outcome in {Filled, FillFailed} || (step.outcome == FillPending && step.rest == []))
    decreases |script|
  {
    hide ReadFrame, Receive, Stops, LastTaken;
    var step := ReadFrame(t.reader, script);
    FrameStops(t.reader, script);
    StopsShort(script, step.rest);
    if step.outcome.Frame? {
      var next := t.(reader := step.reader);
      var received := Receive(next, step.outcome.frame, table, clock(|step.rest|));
      ReceiveKeepsReader(next, step.outcome.frame, table, clock(|step.rest|));
      if received.outcome.None? {
        FillStops(received.transport, step.rest, table, clock);
        var final := Fill(received.transport, step.rest, table, clock);
        StopsFurther(script, step.rest, final.rest);
        StopsShort(step.rest, final.rest);
      }
    }
  }

  lemma StopsShort(script: seq<ReadPoll>, rest: seq<ReadPoll>)
    requires Stops(script, rest)
    ensures |rest| <= |script| && (|rest| == |script| <==> script == [])
  {
  }

  /** The same of the frame reader: every outcome, by the poll it stops at. */
  lemma {:induction false} FrameStops(r: Reader, script: seq<ReadPoll>)
    ensures var step := ReadFrame(r, script);
            && Stops(script, step.rest)
            && (script == [] ==> step == ReadStep(Suspended, r, []))
            && (script != [] ==>
                  match LastTaken(script, step.rest)
                  case Pending => step.outcome == Suspended
                  case Failed => step.outcome == StreamFailed
                  case Eof => step.outcome == (if step.reader.inFrame then UnexpectedEof else NoFrame)
                  case Byte(b) =>
                    || (step.outcome.Frame? && b == 0x7e && step.reader == Reader([], false))
                    || (step.outcome == TooLong && step.reader.inFrame && |step.reader.frame| >= 65536)
                    || (step.outcome == Suspended && step.rest == []))
    decreases |script|
  {
    hide Stops, LastTaken;
    if script == [] {
      StopsAtOnce([], []);
    } else {
      var next := React(r, script[0]);
      StopsAtOnce(script, script[1..]);
      if next.outcome.None? {
        FrameStops(next.reader, script[1..]);
        StopsFurther(script, script[1..], ReadFrame(next.reader, script[1..]).rest);
      }
    }
  }

  lemma StopsAtOnce(script: seq<ReadPoll>, rest: seq<ReadPoll>)
    requires rest == if script == [] then [] else script[1..]
    ensures Stops(script, rest) && (script != [] ==> LastTaken(script, rest) == script[0])
  {
  }

  // ---------------------------------------------------------------------------- writing

  /** All that the answers allow to be written, together. */
  function Total(writes: seq<WritePoll>): nat {
    if writes == [] then 0 else (if writes[0].Wrote? then writes[0].n else 0) + Total(writes[1..])
  }

  predicate Progresses(poll: WritePoll) { poll.Wrote? && poll.n > 0 }

  predicate Breaks(poll: WritePoll) { poll == WriteFailed || poll == Wrote(0) }

  lemma TotalNext(writes: seq<WritePoll>, k: nat)
    requires 0 < k <= |writes|
    ensures Total(writes[..k]) == (if writes[0].Wrote? then writes[0].n else 0) + Total(writes[1..][..k - 1])
  {
    assert writes[..k][1..] == writes[1..][..k - 1];
  }

  lemma NoTotal()
    ensures Total([]) == 0
  {
  }

  /** What is sent of `data` on the answers before `rest`: as many bytes as those allow, from
      the first on; and all of those answers were needed. */
  ghost predicate Sends(data: bytes, writes: seq<WritePoll>, sent: bytes, rest: seq<WritePoll>) {
    && |rest| <= |writes| && rest == writes[|writes| - |rest|..]
    && (forall k :: 0 <= k < |writes| - |rest| ==> Total(writes[..k]) < |data|)
    && sent == data[..Min(|data|, Total(writes[..|writes| - |rest|]))]
  }

  function Allowed(poll: WritePoll, room: nat): nat { Min(if poll.Wrote? then poll.n else 0, room) }

  lemma SendsNothing(data: bytes, writes: seq<WritePoll>)
    ensures Sends(data, writes, [], writes)
  {
    NoTotal();
    assert writes[..0] == [];
  }

  lemma SendsNext(data: bytes, writes: seq<WritePoll>, sent: bytes, rest: seq<WritePoll>)
    requires writes != [] && data != []
    requires Sends(data[Allowed(writes[0], |data|)..], writes[1..], sent, rest)
    ensures Sends(data, writes, data[..Allowed(writes[0], |data|)] + sent, rest)
  {
    hide Total;
    var n, taken := Allowed(writes[0], |data|), |writes| - |rest|;
    assert writes[1..][|writes| - 1 - |rest|..] == writes[taken..];
    TotalNext(writes, taken);
    forall k | 0 <= k < taken ensures Total(writes[..k]) < |data| {
      if k > 0 {
        TotalNext(writes, k);
        assert Total(writes[1..][..k - 1]) < |data[n..]|;
      } else {
        NoTotal();
        assert writes[..0] == [];
      }
    }
    var m := Min(|data| - n, Total(writes[1..][..taken - 1]));
    assert data[..n] + data[n..][..m] == data[..n + m];
  }

  lemma FirstIs(writes: seq<WritePoll>, room: nat)
    ensures writes == [] ==> FirstWrite(writes, room) == WritePending && Tail(writes) == []
    ensures writes != [] ==>
              && Tail(writes) == writes[1..]
              && FirstWrite(writes, room) ==
                   if writes[0].Wrote? then Wrote(Min(writes[0].n, room)) else writes[0]
  {
  }

  /** Whether another answer is asked for after this one: by a drain, which gives up when
      the stream below is pending, or by a loop that waits. */
  predicate GoesOn(poll: WritePoll, waits: bool) { if waits then !Breaks(poll) else Progresses(poll) }

  /** All the answers before `rest` but the last were such. */
  ghost predicate Taken(writes: seq<WritePoll>, rest: seq<WritePoll>, waits: bool) {
    && |rest| <= |writes| && rest == writes[|writes| - |rest|..]
    && (forall i :: 0 <= i < |writes| - |rest| - 1 ==> GoesOn(writes[i], waits))
  }

  function LastAnswer(writes: seq<WritePoll>, rest: seq<WritePoll>): WritePoll
    requires |rest| < |writes|
  {
    writes[|writes| - |rest| - 1]
  }

  lemma TakenNone(writes: seq<WritePoll>, waits: bool)
    ensures Taken(writes, writes, waits)
    ensures writes != [] ==> Taken(writes, writes[1..], waits) && LastAnswer(writes, writes[1..]) == writes[0]
  {
  }

  lemma TakenNext(writes: seq<WritePoll>, rest: seq<WritePoll>, waits: bool)
    requires writes != [] && GoesOn(writes[0], waits) && Taken(writes[1..], rest, waits)
    ensures Taken(writes, rest, waits) && |rest| < |writes|
    ensures LastAnswer(writes, rest) ==
              if |rest| < |writes[1..]| then LastAnswer(writes[1..], rest) else writes[0]
  {
    hide GoesOn;
    var tail := writes[1..];
    assert forall i :: 0 < i < |writes| ==> writes[i] == tail[i - 1];
  }

  lemma GoesOnIs(poll: WritePoll)
    ensures GoesOn(poll, false) <==> Progresses(poll)
    ensures GoesOn(poll, true) <==> !Breaks(poll)
    ensures Progresses(poll) ==> !Breaks(poll)
  {
  }

  /** A drain goes on for as long as bytes are taken and any are left, and not longer. It
      has then sent as many bytes, from the first on, as the answers allow; it is pending or
      fails only at an answer that says so. */
  lemma {:induction false} DrainExactly(t: Transport, writes: seq<WritePoll>)
    requires t.Valid()
    ensures var step := Drain(t, writes);
            && Sends(t.Undrained(), writes, step.sent, step.rest) && Taken(writes, step.rest, false)
            && (step.outcome == Drained <==> step.sent == t.Undrained())
            && (step.outcome == DrainFailed <==>
                  |step.rest| < |writes| && Breaks(LastAnswer(writes, step.rest)))
            && (step.outcome == DrainPending ==>
                  if |step.rest| < |writes| && !Progresses(LastAnswer(writes, step.rest))
                  then LastAnswer(writes, step.rest) == WritePending
                  else step.rest == [])
    decreases |t.writeBuffer| - t.writeOffset
  {
    hide *;
    var data, step := t.Undrained(), Drain(t, writes);
    SendsNothing(data, writes);
    TakenNone(writes, false);
    var next := DrainCases(t, writes);
    if data != [] && writes != [] {
      var n := Allowed(writes[0], |data|);
      GoesOnIs(writes[0]);
      if Progresses(writes[0]) {
        var rest := Drain(next, writes[1..]);
        DrainExactly(next, writes[1..]);
        SendsNext(data, writes, rest.sent, step.rest);
        SentIs(data, n, rest.sent);
        TakenShort(writes[1..], rest.rest, false);
        TakenNext(writes, step.rest, false);
      } else {
        SendsNothing(data[n..], writes[1..]);
        SendsNext(data, writes, [], writes[1..]);
      }
    }
  }

  lemma TakenShort(writes: seq<WritePoll>, rest: seq<WritePoll>, waits: bool)
    requires Taken(writes, rest, waits)
    ensures |rest| <= |writes|
  {
  }

  /** One turn of the loop; what `next` drains is what is left after a write. */
  lemma DrainCases(t: Transport, writes: seq<WritePoll>) returns (next: Transport)
    requires t.Valid()
    ensures var data, step := t.Undrained(), Drain(t, writes);
            && (data == [] ==> step.outcome == Drained && step.sent == [] && step.rest == writes)
            && (data != [] && writes == [] ==> step.outcome == DrainPending && step.sent == [] && step.rest == [])
            && (data != [] && writes != [] ==>
                  var n := Allowed(writes[0], |data|);
                  n <= |data| &&
                  if Progresses(writes[0]) then
                    && next.Valid() && next.Undrained() == data[n..] && !Breaks(writes[0])
                    && |next.writeBuffer| - next.writeOffset < |t.writeBuffer| - t.writeOffset
                    && var rest := Drain(next, writes[1..]);
                    && step.sent == data[..n] + rest.sent && step.outcome == rest.outcome && step.rest == rest.rest
                  else
                    && step.sent == [] == data[..n] + [] && step.rest == writes[1..]
                    && step.outcome == (if Breaks(writes[0]) then DrainFailed else DrainPending)
                    && (!Breaks(writes[0]) ==> writes[0] == WritePending))
    ensures 0 <= |t.writeBuffer| - t.writeOffset
  {
    hide Drain, FirstWrite;
    next := t;
    if t.writeOffset == |t.writeBuffer| {
      DrainsNothing(t, writes);
    } else {
      DrainTakes(t, writes);
      FirstIs(writes, |t.Undrained()|);
      if writes != [] && Progresses(writes[0]) {
        next := t.(writeOffset := t.writeOffset + Allowed(writes[0], |t.Undrained()|));
      }
    }
  }

  lemma SentIs(data: bytes, n: nat, sent: bytes)
    requires n <= |data|
    ensures data[..n] + sent == data <==> sent == data[n..]
  {
    assert data == data[..n] + data[n..];
    assert (data[..n] + sent)[n..] == sent;
  }

  lemma SuffixIs(data: bytes, writes: seq<WritePoll>, sent: bytes, rest: seq<WritePoll>)
    requires Sends(data, writes, sent, rest)
    ensures |rest| <= |writes| && rest == writes[|writes| - |rest|..] && sent <= data
    ensures |sent| <= Total(writes[..|writes| - |rest|])
  {
    hide Total;
  }

  /** A flush or a shutdown is what the drain comes to, if that does not finish. If it does,
      the stream below is asked once more, and what it answers is what comes of it; with no
      answer there, that is pending. */
  lemma FlushExactly(t: Transport, writes: seq<WritePoll>)
    requires t.Valid()
    ensures var drain, step := Drain(t, writes), FlushPayload(t, writes);
            && (drain.outcome != Drained ==> step == drain)
            && (drain.outcome == Drained ==>
                  && step.sent == t.Undrained() && step.transport == drain.transport
                  && if drain.rest == [] then step.outcome == DrainPending && step.rest == []
                     else
                       && drain.rest == [drain.rest[0]] + step.rest
                       && (step.outcome == Drained <==> drain.rest[0].Wrote?)
                       && (step.outcome == DrainPending <==> drain.rest[0] == WritePending)
                       && (step.outcome == DrainFailed <==> drain.rest[0] == WriteFailed))
  {
    hide Drain;
    DrainConserves(t, writes);
    assert Drain(t, writes).sent + [] == Drain(t, writes).sent;
  }

  lemma QueueIs(t: Transport, data: bytes, signature: bytes)
    requires t.reader.Valid() && t.readOffset <= |t.readBuffer|
    ensures var q := Queue(t, data, signature);
            && q.Valid() && q.Undrained() == Hdlc.Encoded(PayloadWire(data, signature))
            && q.signCounter == (t.signCounter + 1) % 0x1_0000_0000_0000_0000
  {
    hide Hdlc.Encoded;
  }

  /** A write drains first. Only when that finishes is the payload signed, at the current
      counter, and its one frame left to be drained; the whole of it counts as written. An
      empty one is never sent. */
  lemma WriteExactly(e: Endpoint, data: bytes, signature: bytes, writes: seq<WritePoll>)
    requires e.transport.Valid()
    ensures var drain := Drain(e.transport, writes);
            var step := WritePayload(e.transport, data, signature, writes);
            var next := Step(e, WriteOp(data, signature, writes));
            var counter := e.transport.signCounter;
            && step.rest == drain.rest && next.sent == e.sent + drain.sent
            && (step.outcome == NotWritten <==> drain.outcome == DrainPending)
            && (step.outcome == WriteError <==> drain.outcome == DrainFailed)
            && (step.outcome == Written(|data|) <==> drain.outcome == Drained)
            && (drain.outcome != Drained || data == [] ==> next.transport == drain.transport && next.log == e.log)
            && (drain.outcome == Drained && data != [] ==>
                  && next.transport.Valid()
                  && next.transport.Undrained() == Hdlc.Encoded([0x05] + signature + data)
                  && next.transport.signCounter == (counter + 1) % 0x1_0000_0000_0000_0000
                  && next.log == e.log + [Signing(counter, data, signature)])
  {
    hide Drain, Hdlc.Encoded;
    DrainConserves(e.transport, writes);
    assert [0x05] + signature + data == PayloadWire(data, signature);
    QueueIs(Drain(e.transport, writes).transport, data, signature);
    hide Queue, PayloadWire;
    assert e.log + [] == e.log;
  }

  /** A keepalive is such a write of an empty payload, and that one is sent. */
  lemma KeepaliveExactly(e: Endpoint, signature: bytes, writes: seq<WritePoll>)
    requires e.transport.Valid()
    ensures var drain := Drain(e.transport, writes);
            var step, next := QueueKeepalive(e.transport, signature, writes), Step(e, KeepaliveOp(signature, writes));
            var counter := e.transport.signCounter;
            && step.rest == drain.rest && step.outcome == drain.outcome && next.sent == e.sent + drain.sent
            && (drain.outcome != Drained ==> next.transport == drain.transport && next.log == e.log)
            && (drain.outcome == Drained ==>
                  && next.transport.Valid()
                  && next.transport.Undrained() == Hdlc.Encoded([0x05] + signature)
                  && next.transport.signCounter == (counter + 1) % 0x1_0000_0000_0000_0000
                  && next.log == e.log + [Signing(counter, [], signature)])
  {
    hide Drain, Hdlc.Encoded;
    DrainConserves(e.transport, writes);
    assert [0x05] + signature == PayloadWire([], signature);
    QueueIs(Drain(e.transport, writes).transport, [], signature);
    hide Queue, PayloadWire;
    assert e.log + [] == e.log;
  }

  // ------------------------------------------------------------- frames of the handshake

  /** `write_all` outlasts any number of Pending: it waits for as long as there are answers,
      and stops at the byte that completes the data or at an answer that is a failure. */
  lemma {:induction false} SendAllExactly(data: bytes, writes: seq<WritePoll>)
    ensures var step := SendAll(data, writes);
            && Sends(data, writes, step.sent, step.rest) && Taken(writes, step.rest, true)
            && (step.outcome == Drained <==> step.sent == data)
            && (step.outcome == DrainFailed <==>
                  |step.rest| < |writes| && Breaks(LastAnswer(writes, step.rest)))
            && (step.outcome == DrainPending ==> step.rest == [])
    decreases |writes|
  {
    hide *;
    var step := SendAll(data, writes);
    SendsNothing(data, writes);
    TakenNone(writes, true);
    SendAllCases(data, writes);
    if data != [] && writes != [] {
      var n := Allowed(writes[0], |data|);
      GoesOnIs(writes[0]);
      if Breaks(writes[0]) {
        SendsNothing(data[n..], writes[1..]);
        SendsNext(data, writes, [], writes[1..]);
      } else {
        var next := SendAll(data[n..], writes[1..]);
        SendAllExactly(data[n..], writes[1..]);
        SendsNext(data, writes, next.sent, next.rest);
        SentIs(data, n, next.sent);
        TakenShort(writes[1..], next.rest, true);
        TakenNext(writes, next.rest, true);
      }
    }
  }

  lemma SendAllCases(data: bytes, writes: seq<WritePoll>)
    ensures var step := SendAll(data, writes);
            && (data == [] ==> step == SendStep(Drained, [], writes))
            && (data != [] && writes == [] ==> step == SendStep(DrainPending, [], []))
            && (data != [] && writes != [] ==>
                  var n := Allowed(writes[0], |data|);
                  n <= |data| &&
                  if Breaks(writes[0]) then
                    step.outcome == DrainFailed && step.sent == [] == data[..n] + [] && step.rest == writes[1..]
                  else
                    var next := SendAll(data[n..], writes[1..]);
                    step == next.(sent := data[..n] + next.sent))
  {
    hide FirstWrite;
    if data != [] && writes != [] {
      FirstIs(writes, |data|);
      assert data[..0] + [] == [] && data[0..] == data;
      if !Breaks(writes[0]) && !writes[0].Wrote? {
        assert data[..0] + SendAll(data, writes[1..]).sent == SendAll(data, writes[1..]).sent;
      }
    }
  }

  /** `flush` waits likewise: the first answer that is not Pending is what comes of it. */
  lemma {:induction false} FlushAllExactly(writes: seq<WritePoll>)
    ensures var step := FlushAll(writes);
            && step.sent == [] && |step.rest| <= |writes| && step.rest == writes[|writes| - |step.rest|..]
            && (forall i :: 0 <= i < |writes| - |step.rest| - 1 ==> writes[i] == WritePending)
            && (step.outcome == Drained <==> |step.rest| < |writes| && LastAnswer(writes, step.rest).Wrote?)
            && (step.outcome == DrainFailed <==>
                  |step.rest| < |writes| && LastAnswer(writes, step.rest) == WriteFailed)
            && (step.outcome == DrainPending ==> step.rest == [])
    decreases |writes|
  {
    if writes != [] && writes[0] == WritePending {
      FlushAllExactly(writes[1..]);
    }
  }

  /** A frame of the handshake is out only when all its bytes have been taken and then an
      answer more, for the flush, was a success. */
  lemma SendFrameExactly(data: bytes, writes: seq<WritePoll>)
    ensures var step := SendFrame(data, writes);
            && |step.rest| <= |writes| && step.rest == writes[|writes| - |step.rest|..]
            && (step.outcome == Drained ==>
                  && step.sent == data && |step.rest| < |writes| && LastAnswer(writes, step.rest).Wrote?
                  && Total(writes[..|writes| - |step.rest| - 1]) >= |data|)
            && (step.outcome == DrainFailed ==>
                  |step.rest| < |writes| && Breaks(LastAnswer(writes, step.rest)))
            && (step.outcome == DrainPending ==> step.rest == [])
            && step.sent <= data && |step.sent| <= Total(writes[..|writes| - |step.rest|])
  {
    hide *;
    var first := SendAll(data, writes);
    SendFrameIs(data, writes);
    SendAllEnds(data, writes);
    if first.outcome == Drained {
      FlushAllEnds(first.rest);
      FlushComesAfter(writes, first.rest, FlushAll(first.rest).rest);
    }
  }

  /** How the two ends of it end. */
  lemma SendAllEnds(data: bytes, writes: seq<WritePoll>)
    ensures var step := SendAll(data, writes);
            && |step.rest| <= |writes| && step.rest == writes[|writes| - |step.rest|..]
            && step.sent <= data && |step.sent| <= Total(writes[..|writes| - |step.rest|])
            && (step.outcome == Drained ==> step.sent == data)
            && (step.outcome == DrainFailed ==>
                  |step.rest| < |writes| && Breaks(LastAnswer(writes, step.rest)))
            && (step.outcome == DrainPending ==> step.rest == [])
  {
    hide SendAll, Sends, Taken, Total, Breaks, LastAnswer;
    SendAllExactly(data, writes);
    SuffixIs(data, writes, SendAll(data, writes).sent, SendAll(data, writes).rest);
  }

  lemma FlushAllEnds(writes: seq<WritePoll>)
    ensures var step := FlushAll(writes);
            && |step.rest| <= |writes| && step.rest == writes[|writes| - |step.rest|..]
            && (step.outcome == Drained ==> |step.rest| < |writes| && LastAnswer(writes, step.rest).Wrote?)
            && (step.outcome == DrainFailed ==>
                  |step.rest| < |writes| && Breaks(LastAnswer(writes, step.rest)))
            && (step.outcome == DrainPending ==> step.rest == [])
  {
    hide FlushAll, LastAnswer;
    FlushAllExactly(writes);
  }

  lemma FlushComesAfter(writes: seq<WritePoll>, first: seq<WritePoll>, rest: seq<WritePoll>)
    requires |rest| <= |first| <= |writes| && first == writes[|writes| - |first|..]
    requires rest == first[|first| - |rest|..]
    ensures rest == writes[|writes| - |rest|..]
    ensures Total(writes[..|writes| - |first|]) <= Total(writes[..|writes| - |rest|])
    ensures |rest| < |first| ==>
              && LastAnswer(writes, rest) == LastAnswer(first, rest)
              && Total(writes[..|writes| - |first|]) <= Total(writes[..|writes| - |rest| - 1])
  {
    hide Total;
    var n, taken := |writes| - |first|, |writes| - |rest|;
    TotalGrows(writes, n, taken);
    if |rest| < |first| {
      TotalGrows(writes, n, taken - 1);
    }
  }

  lemma SendFrameIs(data: bytes, writes: seq<WritePoll>)
    ensures var first := SendAll(data, writes);
            SendFrame(data, writes) ==
              if first.outcome == Drained then FlushAll(first.rest).(sent := first.sent) else first
    ensures Breaks(WriteFailed)
  {
    hide SendAll, FlushAll;
  }

  lemma {:induction false} TotalGrows(writes: seq<WritePoll>, j: nat, k: nat)
    requires j <= k <= |writes|
    ensures Total(writes[..j]) <= Total(writes[..k])
    decreases j
  {
    hide Total;
    if j > 0 {
      TotalNext(writes, j);
      TotalNext(writes, k);
      TotalGrows(writes[1..], j - 1, k - 1);
    } else {
      NoTotal();
      assert writes[..0] == [];
    }
  }
}
