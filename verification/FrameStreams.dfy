/** What a run of the frame reader yields, over whole scripts of polls. */
module FrameStreams {
  import opened Bytes
  import opened Wrappers
  import opened FrameReader
  import Hdlc

  datatype Trace = Trace(outcomes: seq<FrameOutcome>, reader: Reader)

  function Before(o: Option<FrameOutcome>, t: Trace): Trace {
    if o.None? || o.value == Suspended then t else t.(outcomes := [o.value] + t.outcomes)
  }

  /** Every result but Pending that the script leads to, poll result by poll result. */
  function Run(r: Reader, script: seq<ReadPoll>): Trace
    decreases |script|
  {
    if script == [] then Trace([], r)
    else
      var next := React(r, script[0]);
      Before(next.outcome, Run(next.reader, script[1..]))
  }

  /** The same by calling `poll_read_frame` until the script has run out. */
  function Polled(r: Reader, script: seq<ReadPoll>): Trace
    decreases |script|
  {
    if script == [] then Trace([], r)
    else
      var step := ReadFrame(r, script);
      Before(Some(step.outcome), Polled(step.reader, step.rest))
  }

  lemma {:induction false} ReadFrameRuns(r: Reader, script: seq<ReadPoll>)
    ensures var step := ReadFrame(r, script);
            Run(r, script) == Before(Some(step.outcome), Run(step.reader, step.rest))
    decreases |script|
  {
    if script != [] {
      var next := React(r, script[0]);
      if next.outcome.None? {
        ReadFrameRuns(next.reader, script[1..]);
      }
    }
  }

  lemma {:induction false} PolledIsRun(r: Reader, script: seq<ReadPoll>)
    ensures Polled(r, script) == Run(r, script)
    decreases |script|
  {
    hide React;
    if script != [] {
      var step := ReadFrame(r, script);
      ReadFrameRuns(r, script);
      PolledIsRun(step.reader, step.rest);
    }
  }

  function Settled(script: seq<ReadPoll>): seq<ReadPoll> {
    if script == [] then []
    else (if script[0] == Pending then [] else [script[0]]) + Settled(script[1..])
  }

  /** State survives Pending: where it falls does not matter. */
  lemma {:induction false} PendingIsInvisible(r: Reader, script: seq<ReadPoll>)
    ensures Polled(r, script) == Polled(r, Settled(script))
  {
    PolledIsRun(r, script);
    PolledIsRun(r, Settled(script));
    RunSettled(r, script);
  }

  lemma {:induction false} RunSettled(r: Reader, script: seq<ReadPoll>)
    ensures Run(r, script) == Run(r, Settled(script))
    decreases |script|
  {
    if script != [] {
      var next := React(r, script[0]);
      RunSettled(next.reader, script[1..]);
      if script[0] != Pending {
        assert Settled(script)[0] == script[0] && Settled(script)[1..] == Settled(script[1..]);
      } else {
        assert Settled(script) == Settled(script[1..]);
      }
    }
  }

  lemma {:induction false} RunAppend(r: Reader, x: seq<ReadPoll>, y: seq<ReadPoll>)
    ensures var t := Run(r, x);
            Run(r, x + y) == Trace(t.outcomes + Run(t.reader, y).outcomes, Run(t.reader, y).reader)
    decreases |x|
  {
    hide React;
    if x == [] {
      assert x + y == y;
      assert [] + Run(r, y).outcomes == Run(r, y).outcomes;
    } else {
      assert (x + y)[0] == x[0] && (x + y)[1..] == x[1..] + y;
      var next := React(r, x[0]);
      RunAppend(next.reader, x[1..], y);
      var t, u := Run(next.reader, x[1..]), Run(r, x);
      if next.outcome.Some? && next.outcome.value != Suspended {
        assert u.outcomes == [next.outcome.value] + t.outcomes;
        var tail := Run(t.reader, y).outcomes;
        assert [next.outcome.value] + (t.outcomes + tail) == u.outcomes + tail;
      }
    }
  }

  /** The polls that deliver `data` and nothing else. */
  function Arrivals(data: bytes): (script: seq<ReadPoll>)
    ensures |script| == |data|
    ensures forall i :: 0 <= i < |data| ==> script[i] == Byte(data[i])
  {
    seq(|data|, i requires 0 <= i < |data| => Byte(data[i]))
  }

  lemma ArrivalsAppend(x: bytes, y: bytes)
    ensures Arrivals(x + y) == Arrivals(x) + Arrivals(y)
  {
  }

  lemma {:induction false} NoiseIsSkipped(noise: bytes)
    requires FLAG !in noise
    ensures Run(IDLE, Arrivals(noise)) == Trace([], IDLE)
    decreases |noise|
  {
    if noise != [] {
      assert Arrivals(noise)[1..] == Arrivals(noise[1..]);
      NoiseIsSkipped(noise[1..]);
    }
  }

  lemma {:induction false} InteriorIsKept(r: Reader, data: bytes)
    requires r.Valid() && r.inFrame && FLAG !in data
    requires |r.frame| + |data| <= MAX_FRAME_SIZE
    ensures Run(r, Arrivals(data)) == Trace([], Reader(r.frame + data, true))
    decreases |data|
  {
    if data == [] {
      assert r.frame + data == r.frame;
    } else {
      assert Arrivals(data)[1..] == Arrivals(data[1..]);
      var next := Reader(r.frame + [data[0]], true);
      assert next.frame[1..] == r.frame[1..] + [data[0]];
      InteriorIsKept(next, data[1..]);
      assert next.frame + data[1..] == r.frame + data;
    }
  }

  /** Flags at both ends and nowhere else. */
  predicate Delimited(f: bytes) {
    2 <= |f| && f[0] == FLAG && f[|f| - 1] == FLAG && FLAG !in f[1..|f| - 1]
  }

  predicate IsFrame(f: bytes) { Delimited(f) && |f| <= MAX_FRAME_SIZE }

  lemma FrameIsRead(f: bytes)
    requires IsFrame(f)
    ensures Run(IDLE, Arrivals(f)) == Trace([Frame(f)], IDLE)
  {
    hide Run, React;
    var interior := f[1..|f| - 1];
    assert f == [FLAG] + interior + [FLAG];
    ArrivalsAppend([FLAG] + interior, [FLAG]);
    ArrivalsAppend([FLAG], interior);
    RunAppend(IDLE, Arrivals([FLAG]) + Arrivals(interior), Arrivals([FLAG]));
    RunAppend(IDLE, Arrivals([FLAG]), Arrivals(interior));
    var open := Reader([FLAG], true);
    FlagOpens();
    InteriorIsKept(open, interior);
    FlagCloses(Reader([FLAG] + interior, true));
  }

  lemma FlagOpens()
    ensures Run(IDLE, Arrivals([FLAG])) == Trace([], Reader([FLAG], true))
  {
    assert Arrivals([FLAG]) == [Byte(FLAG)] && [Byte(FLAG)][1..] == [];
  }

  lemma FlagCloses(r: Reader)
    requires r.inFrame && |r.frame| < MAX_FRAME_SIZE
    ensures Run(r, Arrivals([FLAG])) == Trace([Frame(r.frame + [FLAG])], IDLE)
  {
    assert Arrivals([FLAG]) == [Byte(FLAG)] && [Byte(FLAG)][1..] == [];
    assert Run(IDLE, []) == Trace([], IDLE);
  }

  /** Frames with noise before each, one after the other. */
  function Woven(parts: seq<(bytes, bytes)>): bytes {
    if parts == [] then [] else parts[0].0 + parts[0].1 + Woven(parts[1..])
  }

  function Frames(parts: seq<(bytes, bytes)>): seq<FrameOutcome> {
    if parts == [] then [] else [Frame(parts[0].1)] + Frames(parts[1..])
  }

  /** Frames interleaved with flag-free noise, with Pending anywhere, come out as exactly
      those frames in order, and leave the reader idle. */
  lemma {:induction false} WovenFramesAreRead(parts: seq<(bytes, bytes)>, script: seq<ReadPoll>)
    requires forall i :: 0 <= i < |parts| ==> FLAG !in parts[i].0 && IsFrame(parts[i].1)
    requires Settled(script) == Arrivals(Woven(parts))
    ensures Polled(IDLE, script) == Trace(Frames(parts), IDLE)
  {
    PolledIsRun(IDLE, script);
    RunSettled(IDLE, script);
    RunWoven(parts);
  }

  lemma {:induction false} RunWoven(parts: seq<(bytes, bytes)>)
    requires forall i :: 0 <= i < |parts| ==> FLAG !in parts[i].0 && IsFrame(parts[i].1)
    ensures Run(IDLE, Arrivals(Woven(parts))) == Trace(Frames(parts), IDLE)
    decreases |parts|
  {
    hide React, IsFrame;
    if parts == [] {
      assert Arrivals([]) == [];
    } else {
      var noise, f, rest := parts[0].0, parts[0].1, Woven(parts[1..]);
      ArrivalsAppend(noise + f, rest);
      ArrivalsAppend(noise, f);
      RunAppend(IDLE, Arrivals(noise) + Arrivals(f), Arrivals(rest));
      RunAppend(IDLE, Arrivals(noise), Arrivals(f));
      NoiseIsSkipped(noise);
      FrameIsRead(f);
      RunWoven(parts[1..]);
      assert [] + [Frame(f)] == [Frame(f)];
    }
  }

  /** Every encoded payload is such a frame if it fits. */
  lemma EncodedIsDelimited(payload: bytes)
    ensures Delimited(Hdlc.Encoded(payload))
  {
    var f, content := Hdlc.Encoded(payload), Hdlc.Content(payload);
    Hdlc.StuffHasNoFlag(content);
    hide Hdlc.Stuff, Hdlc.Content;
    assert f[1..|f| - 1] == Hdlc.Stuff(content);
  }

  // ------------------------------------------------------- shape, memory and overflow

  lemma ReactKeepsValid(r: Reader, poll: ReadPoll)
    requires r.Valid()
    ensures var next := React(r, poll);
            && next.reader.Valid()
            && (next.outcome.Some? && next.outcome.value.Frame? ==>
                  IsFrame(next.outcome.value.frame) && next.reader == IDLE)
  {
    var next := React(r, poll);
    if r.inFrame && poll.Byte? && |r.frame| < MAX_FRAME_SIZE {
      var f := r.frame + [poll.b];
      assert f[1..] == r.frame[1..] + [poll.b];
      assert f[1..|f| - 1] == r.frame[1..];
    }
  }

  /** The reader never holds more than 65536 bytes, and whatever frame it yields has both
      flags and none between them. */
  lemma {:induction false} ReadFrameKeepsValid(r: Reader, script: seq<ReadPoll>)
    requires r.Valid()
    ensures var step := ReadFrame(r, script);
            && step.reader.Valid() && |step.reader.frame| <= MAX_FRAME_SIZE
            && (step.outcome.Frame? ==> IsFrame(step.outcome.frame) && step.reader == IDLE)
    decreases |script|
  {
    hide React, IsFrame;
    if script != [] {
      var next := React(r, script[0]);
      ReactKeepsValid(r, script[0]);
      if next.outcome.None? {
        ReadFrameKeepsValid(next.reader, script[1..]);
      }
    }
  }

  predicate Overflowed(r: Reader) { r.inFrame && |r.frame| >= MAX_FRAME_SIZE }

  /** After an overflow the reader never yields a frame again, nor a clean end. */
  lemma {:induction false} OverflowIsForever(r: Reader, script: seq<ReadPoll>)
    requires Overflowed(r)
    ensures Run(r, script).reader == r
    ensures forall o :: o in Run(r, script).outcomes ==> o in {UnexpectedEof, TooLong, StreamFailed}
    decreases |script|
  {
    if script != [] {
      OverflowIsForever(r, script[1..]);
    }
  }

  lemma {:induction false} TooLongMeansOverflowed(r: Reader, script: seq<ReadPoll>)
    requires ReadFrame(r, script).outcome == TooLong
    ensures Overflowed(ReadFrame(r, script).reader)
    decreases |script|
  {
    var next := React(r, script[0]);
    if next.outcome.None? {
      TooLongMeansOverflowed(next.reader, script[1..]);
    }
  }

  // -------------------------------------------------------------- the blocking reader

  /** Calling the blocking reader until the script has run out. */
  function Blocking(script: seq<ReadPoll>): seq<FrameOutcome>
    decreases |script|
  {
    if script == [] then []
    else
      var step := ReadFrame(IDLE, script);
      (if step.outcome == Suspended then [] else [step.outcome]) + Blocking(step.rest)
  }

  /** Frames and clean ends, up to and including the first error. */
  function UpToError(outcomes: seq<FrameOutcome>): seq<FrameOutcome> {
    if outcomes == [] then []
    else if outcomes[0].Frame? || outcomes[0].NoFrame? then [outcomes[0]] + UpToError(outcomes[1..])
    else [outcomes[0]]
  }

  /** Both readers yield the same frames and clean ends and the same first error. */
  lemma {:induction false} BlockingAgrees(script: seq<ReadPoll>)
    requires Pending !in script
    ensures UpToError(Blocking(script)) == UpToError(Polled(IDLE, script).outcomes)
    decreases |script|
  {
    hide React;
    if script != [] {
      var step := ReadFrame(IDLE, script);
      ReadFrameKeepsValid(IDLE, script);
      ReadFrameTail(IDLE, script);
      if step.outcome == Suspended {
      } else {
        assert Blocking(script)[1..] == Blocking(step.rest);
        assert Polled(IDLE, script).outcomes[1..] == Polled(step.reader, step.rest).outcomes;
        if step.outcome.Frame? || step.outcome.NoFrame? {
          if step.outcome.NoFrame? {
            CleanEndIsIdle(IDLE, script);
          }
          BlockingAgrees(step.rest);
        }
      }
    }
  }

  /** After a clean end the reader is idle. */
  lemma {:induction false} CleanEndIsIdle(r: Reader, script: seq<ReadPoll>)
    requires r.Valid() && ReadFrame(r, script).outcome == NoFrame
    ensures ReadFrame(r, script).reader == IDLE
    decreases |script|
  {
    var next := React(r, script[0]);
    ReactKeepsValid(r, script[0]);
    if next.outcome.None? {
      CleanEndIsIdle(next.reader, script[1..]);
    }
  }

  lemma {:induction false} ReadFrameTail(r: Reader, script: seq<ReadPoll>)
    requires Pending !in script
    ensures var step := ReadFrame(r, script);
            Pending !in step.rest && (step.outcome == Suspended ==> step.rest == [])
    decreases |script|
  {
    if script != [] {
      var next := React(r, script[0]);
      if next.outcome.None? {
        ReadFrameTail(next.reader, script[1..]);
      }
    }
  }
}
