/** Frames: byte stuffing (section 4.2 of RFC 1662) around a payload and its FCS. */
module Hdlc {
  import opened Bytes
  import opened Fcs
  import opened Wrappers

  const FLAG: byte := 0x7e
  const ESCAPE: byte := 0x7d
  const ESCAPE_XOR: byte := 0x20
  const MAX_FRAME_SIZE := 65536

  datatype FrameError =
    | TooLarge | TooShort | MissingOpeningFlag | MissingClosingFlag
    | UnexpectedFlag | DanglingEscape | MissingFcs | FcsMismatch

  predicate Special(b: byte) { b == FLAG || b == ESCAPE }

  function Flip(b: byte): byte { b ^ ESCAPE_XOR }

  // ------------------------------------------------------------------------- encoding

  function StuffByte(b: byte): bytes {
    if Special(b) then [ESCAPE, Flip(b)] else [b]
  }

  /** What `escape_into` appends. */
  function Stuff(p: bytes): bytes {
    if p == [] then [] else StuffByte(p[0]) + Stuff(p[1..])
  }

  /** What the frame of a payload must carry between its flags, before stuffing. */
  function Content(payload: bytes): bytes {
    payload + Le16(FrameFcs(payload))
  }

  function Encoded(payload: bytes): bytes {
    [FLAG] + Stuff(Content(payload)) + [FLAG]
  }

  method EscapeInto(data: bytes, start: bytes) returns (out: bytes)
    ensures out == start + Stuff(data)
  {
    out := start;
    for i := 0 to |data|
      invariant out + Stuff(data[i..]) == start + Stuff(data)
    {
      assert data[i..][1..] == data[i + 1..];
      if Special(data[i]) {
        out := out + [ESCAPE];
        out := out + [Flip(data[i])];
      } else {
        out := out + [data[i]];
      }
    }
  }

  method Encode(payload: bytes) returns (framed: bytes)
    ensures framed == Encoded(payload)
  {
    var fcs := FrameFcs(payload);
    framed := [FLAG];
    framed := EscapeInto(payload, framed);
    framed := EscapeInto(Le16(fcs), framed);
    framed := framed + [FLAG];
    StuffAppend(payload, Le16(fcs));
  }

  // ------------------------------------------------------------------------- decoding

  function Push(b: byte, r: Result<bytes, FrameError>): Result<bytes, FrameError> {
    match r
    case Ok(p) => Ok([b] + p)
    case Err(e) => Err(e)
  }

  /** The loop of `decode` over what lies between the flags. */
  function Unstuff(s: bytes): Result<bytes, FrameError>
    decreases |s|
  {
    if s == [] then Ok([])
    else if s[0] == ESCAPE then
      if |s| == 1 then Err(DanglingEscape) else Push(Flip(s[1]), Unstuff(s[2..]))
    else if s[0] == FLAG then Err(UnexpectedFlag)
    else Push(s[0], Unstuff(s[1..]))
  }

  function CheckFcs(content: bytes): Result<bytes, FrameError> {
    if |content| < 2 then Err(MissingFcs)
    else if !Accepts(content) then Err(FcsMismatch)
    else Ok(content[..|content| - 2])
  }

  function Decoded(frame: bytes): Result<bytes, FrameError> {
    if |frame| > MAX_FRAME_SIZE then Err(TooLarge)
    else if |frame| < 4 then Err(TooShort)
    else if frame[0] != FLAG then Err(MissingOpeningFlag)
    else if frame[|frame| - 1] != FLAG then Err(MissingClosingFlag)
    else match Unstuff(frame[1..|frame| - 1])
      case Err(e) => Err(e)
      case Ok(content) => CheckFcs(content)
  }

  /** `Unstuff` from the middle of an escape or not, with `done` already taken out. */
  function Resume(done: bytes, escaped: bool, s: bytes): Result<bytes, FrameError> {
    var rest := if escaped then Unstuff([ESCAPE] + s) else Unstuff(s);
    match rest
    case Ok(p) => Ok(done + p)
    case Err(e) => Err(e)
  }

  lemma ResumeStep(done: bytes, escaped: bool, s: bytes)
    requires s != []
    ensures escaped ==> Resume(done, true, s) == Resume(done + [Flip(s[0])], false, s[1..])
    ensures !escaped && s[0] == ESCAPE ==> Resume(done, false, s) == Resume(done, true, s[1..])
    ensures !escaped && s[0] == FLAG ==> Resume(done, false, s) == Err(UnexpectedFlag)
    ensures !escaped && !Special(s[0]) ==>
              Resume(done, false, s) == Resume(done + [s[0]], false, s[1..])
  {
    hide Flip;
    assert ([ESCAPE] + s)[2..] == s[1..] && ([ESCAPE] + s)[1] == s[0];
    assert s[0] == ESCAPE ==> [ESCAPE] + s[1..] == s;
    assert forall p: bytes :: done + ([Flip(s[0])] + p) == (done + [Flip(s[0])]) + p;
    assert forall p: bytes :: done + ([s[0]] + p) == (done + [s[0]]) + p;
  }

  method Decode(frame: bytes) returns (r: Result<bytes, FrameError>)
    ensures r == Decoded(frame)
  {
    if |frame| > MAX_FRAME_SIZE { return Err(TooLarge); }
    if |frame| < 4 { return Err(TooShort); }
    if frame[0] != FLAG { return Err(MissingOpeningFlag); }
    if frame[|frame| - 1] != FLAG { return Err(MissingClosingFlag); }
    hide Unstuff, Flip, Accepts;
    var interior := frame[1..|frame| - 1];
    var unescaped: bytes, escaped := [], false;
    for i := 0 to |interior|
      invariant Resume(unescaped, escaped, interior[i..]) == Resume([], false, interior)
    {
      var b := interior[i];
      ResumeStep(unescaped, escaped, interior[i..]);
      assert interior[i..][1..] == interior[i + 1..];
      if escaped {
        unescaped := unescaped + [Flip(b)];
        escaped := false;
        continue;
      }
      if b == ESCAPE {
        escaped := true;
      } else if b == FLAG {
        ResumeNothing(interior);
        return Err(UnexpectedFlag);
      } else {
        unescaped := unescaped + [b];
      }
    }
    ResumeNothing(interior);
    UnstuffEnds();
    assert interior[|interior|..] == [] && [ESCAPE] + [] == [ESCAPE];
    if escaped { return Err(DanglingEscape); }
    assert unescaped + [] == unescaped;
    if |unescaped| < 2 { return Err(MissingFcs); }
    var n := |unescaped| - 2;
    var payload := unescaped[..n];
    var receivedFcs := FromLe16(unescaped[n], unescaped[n + 1]);
    var expectedFcs := FrameFcs(payload);
    AcceptsMeans(unescaped);
    if expectedFcs != receivedFcs { return Err(FcsMismatch); }
    return Ok(payload);
  }

  lemma AcceptsMeans(content: bytes)
    requires |content| >= 2
    ensures var n := |content| - 2;
            Accepts(content) <==> FrameFcs(content[..n]) == FromLe16(content[n], content[n + 1])
  {
  }

  lemma UnstuffEnds()
    ensures Unstuff([]) == Ok([]) && Unstuff([ESCAPE]) == Err(DanglingEscape)
  {
  }

  lemma ResumeNothing(s: bytes)
    ensures Resume([], false, s) == Unstuff(s)
  {
    assert forall p: bytes :: [] + p == p;
  }

  // -------------------------------------------------------- which bytes spell a content

  /** Whether `s` is a stuffing of `content`: each byte is sent as itself, unless it is a
      flag or an escape, or as an escape and the flipped byte. A sender may choose. */
  predicate Spells(s: bytes, content: bytes)
    decreases |content|
  {
    if content == [] then s == []
    else
      || (|s| >= 2 && s[0] == ESCAPE && s[1] == Flip(content[0]) && Spells(s[2..], content[1..]))
      || (|s| >= 1 && s[0] == content[0] && !Special(s[0]) && Spells(s[1..], content[1..]))
  }

  lemma FlipFlip(b: byte)
    ensures Flip(Flip(b)) == b
  {
  }

  lemma {:induction false} StuffAppend(x: bytes, y: bytes)
    ensures Stuff(x + y) == Stuff(x) + Stuff(y)
    decreases |x|
  {
    hide StuffByte;
    if x == [] {
      assert x + y == y;
    } else {
      assert (x + y)[1..] == x[1..] + y;
      StuffAppend(x[1..], y);
    }
  }

  /** `decode` accepts between the flags exactly the stuffings of a content, whichever
      bytes the sender chose to escape. */
  lemma {:induction false} UnstuffExactly(s: bytes, content: bytes)
    ensures Unstuff(s) == Ok(content) <==> Spells(s, content)
    decreases |s|
  {
    hide Flip;
    if s == [] {
    } else if s[0] == ESCAPE {
      if |s| > 1 {
        PushExactly(Flip(s[1]), Unstuff(s[2..]), content);
        FlipFlip(s[1]);
        if content != [] {
          FlipFlip(content[0]);
          UnstuffExactly(s[2..], content[1..]);
        }
      }
    } else if s[0] != FLAG {
      PushExactly(s[0], Unstuff(s[1..]), content);
      if content != [] {
        UnstuffExactly(s[1..], content[1..]);
      }
    }
  }

  lemma PushExactly(b: byte, r: Result<bytes, FrameError>, content: bytes)
    ensures Push(b, r) == Ok(content) <==>
              content != [] && b == content[0] && r == Ok(content[1..])
  {
    if r.Ok? {
      assert ([b] + r.value)[1..] == r.value;
      assert content != [] ==> content == [content[0]] + content[1..];
    }
  }

  /** The encoder's stuffing is one of them, and the shortest. */
  lemma {:induction false} StuffSpells(content: bytes)
    ensures Spells(Stuff(content), content)
    decreases |content|
  {
    hide Flip;
    if content != [] {
      StuffSpells(content[1..]);
      var s, rest := Stuff(content), Stuff(content[1..]);
      if Special(content[0]) {
        assert s[2..] == rest;
      } else {
        assert s[1..] == rest;
      }
    }
  }

  lemma {:induction false} StuffIsShortest(s: bytes, content: bytes)
    requires Spells(s, content)
    ensures |Stuff(content)| <= |s|
    decreases |content|
  {
    hide Flip;
    if content != [] {
      if |s| >= 2 && s[0] == ESCAPE && s[1] == Flip(content[0]) && Spells(s[2..], content[1..]) {
        StuffIsShortest(s[2..], content[1..]);
      } else {
        StuffIsShortest(s[1..], content[1..]);
      }
    }
  }

  // -------------------------------------------------------------- frames and payloads

  lemma AcceptsExactly(content: bytes, payload: bytes)
    ensures CheckFcs(content) == Ok(payload) <==> content == Content(payload)
  {
    var fcs := Le16(FrameFcs(payload));
    if content == Content(payload) {
      assert content[..|content| - 2] == payload;
      assert content[|content| - 2] == fcs[0] && content[|content| - 1] == fcs[1];
      Le16RoundTrip(FrameFcs(payload));
    }
    if CheckFcs(content) == Ok(payload) {
      var n := |content| - 2;
      FromLe16RoundTrip(content[n], content[n + 1]);
      hide FromLe16, Le16, FrameFcs;
      assert content == content[..n] + [content[n], content[n + 1]];
    }
  }

  /** A frame decodes to a payload exactly when it fits, has its flags, and spells between
      them the payload followed by its FCS. */
  lemma DecodeExactly(frame: bytes, payload: bytes)
    ensures Decoded(frame) == Ok(payload) <==>
              && 4 <= |frame| <= MAX_FRAME_SIZE
              && frame[0] == FLAG && frame[|frame| - 1] == FLAG
              && Spells(frame[1..|frame| - 1], Content(payload))
  {
    hide Unstuff, CheckFcs, Content, Spells;
    if 4 <= |frame| {
      var interior := frame[1..|frame| - 1];
      UnstuffExactly(interior, Content(payload));
      AcceptsExactly(Content(payload), payload);
      if Unstuff(interior).Ok? {
        AcceptsExactly(Unstuff(interior).value, payload);
      }
    }
  }

  function SpecialCount(p: bytes): nat {
    if p == [] then 0 else (if Special(p[0]) then 1 else 0) + SpecialCount(p[1..])
  }

  lemma {:induction false} StuffLength(p: bytes)
    ensures |Stuff(p)| == |p| + SpecialCount(p) && SpecialCount(p) <= |p|
    decreases |p|
  {
    if p != [] {
      StuffLength(p[1..]);
    }
  }

  /** Two flags, two FCS bytes, and one more byte for each flag or escape. */
  lemma EncodedLength(payload: bytes)
    ensures |Encoded(payload)| == |payload| + 4 + SpecialCount(Content(payload))
    ensures |payload| + 4 <= |Encoded(payload)| <= 2 * |payload| + 6
  {
    hide FrameFcs, Le16;
    StuffLength(Content(payload));
  }

  /** The round trip holds exactly when the frame fits. */
  lemma RoundTripExactly(payload: bytes)
    ensures Decoded(Encoded(payload)) == Ok(payload) <==> |Encoded(payload)| <= MAX_FRAME_SIZE
    ensures |Encoded(payload)| > MAX_FRAME_SIZE ==> Decoded(Encoded(payload)) == Err(TooLarge)
  {
    hide Content, Stuff, Spells;
    EncodedLength(payload);
    DecodeExactly(Encoded(payload), payload);
    StuffSpells(Content(payload));
    var frame := Encoded(payload);
    assert frame[1..|frame| - 1] == Stuff(Content(payload));
  }

  /** Payloads of up to 32765 bytes always round-trip; above 65532 they never do. */
  lemma RoundTripBounds(payload: bytes)
    ensures |payload| <= 32765 ==> Decoded(Encoded(payload)) == Ok(payload)
    ensures |payload| > 65532 ==> Decoded(Encoded(payload)) == Err(TooLarge)
  {
    hide Decoded, Encoded;
    EncodedLength(payload);
    RoundTripExactly(payload);
  }

  /** `encode` loses nothing, at any length. */
  lemma EncodedInjective(p: bytes, q: bytes)
    requires Encoded(p) == Encoded(q)
    ensures p == q
  {
    hide Stuff, Unstuff, Spells, FrameFcs, Le16;
    var s, t := Stuff(Content(p)), Stuff(Content(q));
    assert s == Encoded(p)[1..|s| + 1] && t == Encoded(q)[1..|t| + 1];
    StuffSpells(Content(p));
    StuffSpells(Content(q));
    UnstuffExactly(s, Content(p));
    UnstuffExactly(t, Content(q));
    assert Content(p)[..|p|] == p && Content(q)[..|q|] == q;
  }

  /** No flag survives stuffing, so a frame's first flag is its end. */
  lemma {:induction false} StuffHasNoFlag(p: bytes)
    ensures FLAG !in Stuff(p)
    decreases |p|
  {
    if p != [] {
      StuffHasNoFlag(p[1..]);
    }
  }

  // ------------------------------------------------------------------- which error it is

  /** The bytes up to `k` spell something. */
  ghost predicate SpellsUpTo(s: bytes, k: nat)
    requires k <= |s|
  {
    exists content :: Spells(s[..k], content)
  }

  ghost predicate BareFlag(s: bytes) {
    exists k :: 0 <= k < |s| && s[k] == 0x7e && SpellsUpTo(s, k)
  }

  ghost predicate Dangles(s: bytes) {
    s != [] && s[|s| - 1] == 0x7d && SpellsUpTo(s, |s| - 1)
  }

  lemma NothingSpelt(s: bytes)
    ensures SpellsUpTo(s, 0)
  {
    assert Spells(s[..0], []);
  }

  /** One byte sent as itself, or as an escape and another. */
  lemma SpelledNext(s: bytes, k: nat)
    requires k <= |s| && s != [] && s[0] != ESCAPE && s[0] != FLAG && k > 0
    ensures SpellsUpTo(s, k) <==> SpellsUpTo(s[1..], k - 1)
  {
    hide Flip;
    assert s[..k][1..] == s[1..][..k - 1];
    if SpellsUpTo(s, k) {
      var content :| Spells(s[..k], content);
      assert Spells(s[1..][..k - 1], content[1..]);
    }
    if SpellsUpTo(s[1..], k - 1) {
      var content :| Spells(s[1..][..k - 1], content);
      assert ([s[0]] + content)[1..] == content;
      assert Spells(s[..k], [s[0]] + content);
    }
  }

  lemma SpelledEscape(s: bytes, k: nat)
    requires k <= |s| && |s| > 1 && s[0] == ESCAPE && k > 1
    ensures SpellsUpTo(s, k) <==> SpellsUpTo(s[2..], k - 2)
  {
    hide Flip;
    assert s[..k][2..] == s[2..][..k - 2];
    if SpellsUpTo(s, k) {
      var content :| Spells(s[..k], content);
      assert Spells(s[2..][..k - 2], content[1..]);
    }
    if SpellsUpTo(s[2..], k - 2) {
      var content :| Spells(s[2..][..k - 2], content);
      FlipFlip(s[1]);
      assert ([Flip(s[1])] + content)[1..] == content;
      assert Spells(s[..k], [Flip(s[1])] + content);
    }
  }

  lemma OneByteSpelt(s: bytes)
    requires s != [] && s[0] == ESCAPE
    ensures !SpellsUpTo(s, 1)
  {
    hide Flip;
  }

  lemma FlagSpelt(s: bytes, k: nat)
    requires 0 < k <= |s| && s[0] == FLAG
    ensures !SpellsUpTo(s, k)
  {
    hide Flip;
  }

  /** A flag is unexpected iff all before it spells something, and an escape is left over iff
      it comes last and all before it does. */
  lemma {:induction false} UnstuffErrsExactly(s: bytes)
    ensures Unstuff(s) == Err(UnexpectedFlag) <==> BareFlag(s)
    ensures Unstuff(s) == Err(DanglingEscape) <==> Dangles(s)
    ensures Unstuff(s).Err? ==> Unstuff(s).error in {UnexpectedFlag, DanglingEscape}
    decreases |s|
  {
    hide Flip, SpellsUpTo;
    if s == [] {
    } else if s[0] == FLAG {
      NothingSpelt(s);
      if |s| > 1 {
        FlagSpelt(s, |s| - 1);
      }
    } else {
      var n := if s[0] == ESCAPE then 2 else 1;
      NothingSpelt(s);
      if n == 2 {
        OneByteSpelt(s);
      }
      if n <= |s| {
        var rest := s[n..];
        UnstuffErrsExactly(rest);
        forall k | n <= k <= |s| ensures SpellsUpTo(s, k) <==> SpellsUpTo(rest, k - n) {
          if n == 2 {
            SpelledEscape(s, k);
          } else {
            SpelledNext(s, k);
          }
        }
        BareFlagNext(s, rest, n);
      }
    }
  }

  lemma BareFlagNext(s: bytes, rest: bytes, n: nat)
    requires 0 < n <= 2 && n <= |s| && rest == s[n..] && s[0] != FLAG
    requires forall k :: n <= k <= |s| ==> (SpellsUpTo(s, k) <==> SpellsUpTo(rest, k - n))
    requires n == 2 ==> !SpellsUpTo(s, 1)
    ensures BareFlag(s) <==> BareFlag(rest)
  {
    hide SpellsUpTo;
    if BareFlag(s) {
      var k :| 0 <= k < |s| && s[k] == 0x7e && SpellsUpTo(s, k);
      assert rest[k - n] == 0x7e && SpellsUpTo(rest, k - n);
    }
    if BareFlag(rest) {
      var k :| 0 <= k < |rest| && rest[k] == 0x7e && SpellsUpTo(rest, k);
      assert s[k + n] == 0x7e && SpellsUpTo(s, k + n);
    }
  }

  /** Every error of `decode`, by the frame alone: the length and the flags first, then what
      lies between them, and its FCS last. */
  lemma DecodeErrsExactly(frame: bytes)
    ensures Decoded(frame) == Err(TooLarge) <==> |frame| > 65536
    ensures Decoded(frame) == Err(TooShort) <==> |frame| < 4
    ensures Decoded(frame) == Err(MissingOpeningFlag) <==> 4 <= |frame| <= 65536 && frame[0] != 0x7e
    ensures Decoded(frame) == Err(MissingClosingFlag) <==>
              4 <= |frame| <= 65536 && frame[0] == 0x7e && frame[|frame| - 1] != 0x7e
    ensures 4 <= |frame| <= 65536 && frame[0] == frame[|frame| - 1] == 0x7e ==>
              var inner, r := frame[1..|frame| - 1], Decoded(frame);
              && (r == Err(UnexpectedFlag) <==> BareFlag(inner))
              && (r == Err(DanglingEscape) <==> Dangles(inner))
              && (r == Err(MissingFcs) <==> exists c: bytes :: Spells(inner, c) && |c| < 2)
              && (r == Err(FcsMismatch) <==> exists c: bytes :: Spells(inner, c) && |c| >= 2 && !Accepts(c))
  {
    hide Unstuff, Spells, BareFlag, Dangles, Accepts;
    if 4 <= |frame| {
      var inner := frame[1..|frame| - 1];
      UnstuffErrsExactly(inner);
      forall c: bytes ensures Spells(inner, c) <==> Unstuff(inner) == Ok(c) {
        UnstuffExactly(inner, c);
      }
    }
  }
}
