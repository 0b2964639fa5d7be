/** Cutting a byte stream into frames, one poll at a time. */
module FrameReader {
  import opened Bytes
  import opened Wrappers
  import Hdlc

  const FLAG := Hdlc.FLAG
  const MAX_FRAME_SIZE := Hdlc.MAX_FRAME_SIZE

  /** What one poll for one byte of the underlying stream may yield. */
  datatype ReadPoll = Pending | Byte(b: byte) | Eof | Failed

  /** What polling for a frame may yield; `NoFrame` is the source's `Ok(None)`. */
  datatype FrameOutcome =
    | Suspended | Frame(frame: bytes) | NoFrame | UnexpectedEof | TooLong | StreamFailed

  datatype Reader = Reader(frame: bytes, inFrame: bool) {
    ghost predicate Valid() {
      if !inFrame then frame == []
      else 1 <= |frame| <= MAX_FRAME_SIZE && frame[0] == FLAG && FLAG !in frame[1..]
    }
  }

  const IDLE := Reader([], false)

  datatype Reaction = Reaction(outcome: Option<FrameOutcome>, reader: Reader)

  /** One poll result: the new state, and what it makes the poll for a frame return. */
  function React(r: Reader, poll: ReadPoll): Reaction {
    match poll
    case Pending => Reaction(Some(Suspended), r)
    case Failed => Reaction(Some(StreamFailed), r)
    case Eof => Reaction(Some(if r.inFrame then UnexpectedEof else NoFrame), r)
    case Byte(b) =>
      if !r.inFrame then
        Reaction(None, if b == FLAG then Reader([b], true) else r)
      else if |r.frame| >= MAX_FRAME_SIZE then Reaction(Some(TooLong), r)
      else if b == FLAG then Reaction(Some(Frame(r.frame + [b])), IDLE)
      else Reaction(None, Reader(r.frame + [b], true))
  }

  datatype ReadStep = ReadStep(outcome: FrameOutcome, reader: Reader, rest: seq<ReadPoll>)

  /** `poll_read_frame` against a script of poll results; where it ends, more is pending. */
  function ReadFrame(r: Reader, script: seq<ReadPoll>): (step: ReadStep)
    ensures script != [] ==> |step.rest| < |script|
    decreases |script|
  {
    if script == [] then ReadStep(Suspended, r, [])
    else
      var next := React(r, script[0]);
      match next.outcome
      case Some(outcome) => ReadStep(outcome, next.reader, script[1..])
      case None => ReadFrame(next.reader, script[1..])
  }

  /** Awaiting a frame: polling again for as long as it is pending and there is script. */
  function Await(r: Reader, script: seq<ReadPoll>): ReadStep
    decreases |script|
  {
    var step := ReadFrame(r, script);
    if step.outcome == Suspended && script != [] then Await(step.reader, step.rest)
    else step
  }

  // ------------------------------------------------------------------ the program

  datatype WritePoll = WritePending | Wrote(n: nat) | WriteFailed

  /** The underlying stream. Its future is a script: what each poll for a byte, and each
      poll to write, flush or shut down, will answer; a script that has run out answers
      Pending. A flush or shutdown succeeds on any answer but Pending and a failure;
      `flushed` and `closed` count those that did. */
  class ByteStream {
    var incoming: seq<ReadPoll>
    var writes: seq<WritePoll>
    var sent: bytes
    var flushed: nat
    var closed: nat

    constructor (incoming: seq<ReadPoll>, writes: seq<WritePoll>)
      ensures this.incoming == incoming && this.writes == writes && sent == [] && flushed == closed == 0
    {
      this.incoming, this.writes, sent, flushed, closed := incoming, writes, [], 0, 0;
    }

    method PollRead() returns (poll: ReadPoll)
      modifies this`incoming
      ensures old(incoming) == [] ==> poll == Pending && incoming == []
      ensures old(incoming) != [] ==> poll == old(incoming)[0] && incoming == old(incoming)[1..]
    {
      poll := Pending;
      if incoming != [] {
        poll, incoming := incoming[0], incoming[1..];
      }
    }

    /** At most all of `data` is taken, from its start. */
    method PollWrite(data: bytes) returns (poll: WritePoll)
      modifies this`writes, this`sent
      ensures poll == FirstWrite(old(writes), |data|) && writes == Tail(old(writes))
      ensures poll.Wrote? ==> poll.n <= |data|
      ensures sent == old(sent) + if poll.Wrote? then data[..poll.n] else []
    {
      poll := FirstWrite(writes, |data|);
      writes := Tail(writes);
      if poll.Wrote? {
        sent := sent + data[..poll.n];
      }
    }

    method PollFlush() returns (poll: WritePoll)
      modifies this`writes, this`flushed
      ensures poll == FirstFlush(old(writes)) && writes == Tail(old(writes))
      ensures flushed == old(flushed) + if poll.Wrote? then 1 else 0
    {
      poll := FirstFlush(writes);
      writes := Tail(writes);
      if poll.Wrote? {
        flushed := flushed + 1;
      }
    }

    method PollShutdown() returns (poll: WritePoll)
      modifies this`writes, this`closed
      ensures poll == FirstFlush(old(writes)) && writes == Tail(old(writes))
      ensures closed == old(closed) + if poll.Wrote? then 1 else 0
    {
      poll := FirstFlush(writes);
      writes := Tail(writes);
      if poll.Wrote? {
        closed := closed + 1;
      }
    }
  }

  /** What a poll to flush or shut down makes of the next answer. */
  function FirstFlush(writes: seq<WritePoll>): WritePoll {
    if writes == [] then WritePending else writes[0]
  }

  function FirstWrite(writes: seq<WritePoll>, room: nat): (poll: WritePoll)
    ensures poll.Wrote? ==> poll.n <= room
  {
    if writes == [] then WritePending
    else if writes[0].Wrote? && writes[0].n > room then Wrote(room)
    else writes[0]
  }

  function Tail<T>(s: seq<T>): seq<T> { if s == [] then [] else s[1..] }

  class AsyncFrameReader {
    var frame: bytes
    var inFrame: bool

    constructor ()
      ensures State() == IDLE
    {
      frame, inFrame := [], false;
    }

    function State(): Reader
      reads this
    {
      Reader(frame, inFrame)
    }

    method PollReadFrame(stream: ByteStream) returns (outcome: FrameOutcome)
      modifies this, stream`incoming
      ensures ReadFrame(old(State()), old(stream.incoming))
           == ReadStep(outcome, State(), stream.incoming)
    {
      ghost var goal := ReadFrame(State(), stream.incoming);
      while true
        invariant ReadFrame(State(), stream.incoming) == goal
        decreases |stream.incoming|
      {
        var poll := stream.PollRead();
        match poll
        case Pending => return Suspended;
        case Failed => return StreamFailed;
        case Eof =>
          if !inFrame {
            return NoFrame;
          }
          return UnexpectedEof;
        case Byte(b) =>
          if !inFrame {
            if b == FLAG {
              frame := [];
              frame := frame + [b];
              inFrame := true;
              assert frame == [b];
            }
            continue;
          }
          var pushed;
          pushed, frame := PushFrameByte(frame, b);
          if !pushed {
            return TooLong;
          }
          if b == FLAG {
            inFrame := false;
            var whole := frame;
            frame := [];
            return Frame(whole);
          }
      }
    }
  }

  method PushFrameByte(start: bytes, b: byte) returns (pushed: bool, frame: bytes)
    ensures pushed == (|start| < MAX_FRAME_SIZE)
    ensures frame == if pushed then start + [b] else start
  {
    frame := start;
    if |frame| >= MAX_FRAME_SIZE {
      return false, frame;
    }
    frame := frame + [b];
    pushed := true;
  }

  /** A fresh reader for one frame. The result is pending only if the script ran out. */
  method ReadFrameAsync(stream: ByteStream) returns (outcome: FrameOutcome, ghost left: Reader)
    modifies stream`incoming
    ensures Await(IDLE, old(stream.incoming)) == ReadStep(outcome, left, stream.incoming)
  {
    var reader := new AsyncFrameReader();
    ghost var goal := Await(IDLE, stream.incoming);
    outcome := Suspended;
    while outcome == Suspended && stream.incoming != []
      invariant outcome == Suspended ==> Await(reader.State(), stream.incoming) == goal
      invariant outcome != Suspended ==> ReadStep(outcome, reader.State(), stream.incoming) == goal
      decreases |stream.incoming|
    {
      outcome := reader.PollReadFrame(stream);
    }
    left := reader.State();
  }

  // --------------------------------------------------------------- the blocking reader

  /** `read_frame`: its state lives for one call; `None` while it still blocks. A blocking
      read is never pending. */
  method ReadFrameBlocking(stream: ByteStream) returns (outcome: FrameOutcome)
    requires Pending !in stream.incoming
    modifies stream`incoming
    ensures var step := ReadFrame(IDLE, old(stream.incoming));
            outcome == step.outcome && stream.incoming == step.rest
  {
    var frame: bytes, inFrame := [], false;
    ghost var goal := ReadFrame(IDLE, stream.incoming);
    while stream.incoming != []
      invariant Pending !in stream.incoming
      invariant ReadFrame(Reader(frame, inFrame), stream.incoming) == goal
      decreases |stream.incoming|
    {
      var poll := stream.PollRead();
      match poll
      case Pending => assert false;
      case Failed => return StreamFailed;
      case Eof =>
        if !inFrame {
          return NoFrame;
        }
        return UnexpectedEof;
      case Byte(b) =>
        if !inFrame {
          if b == FLAG {
            frame := [];
            frame := frame + [b];
            inFrame := true;
            assert frame == [b];
          }
          continue;
        }
        var pushed;
        pushed, frame := PushFrameByte(frame, b);
        if !pushed {
          return TooLong;
        }
        if b == FLAG {
          return Frame(frame);
        }
    }
    return Suspended;
  }
}
