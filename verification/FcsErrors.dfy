/** Which transmission errors the frame check sequence is certain to detect. Contents are
    read as bits in transmission order, least significant bit of each byte first. */
module FcsErrors {
  import opened Bytes
  import opened Fcs
  import opened FcsLaws

  /** The `n` low bits of `v`, lowest first. */
  function LowBits(v: bv16, n: nat): (s: seq<bool>)
    ensures |s| == n
    decreases n
  {
    if n == 0 then [] else [Low(v)] + LowBits(Half(v), n - 1)
  }

  function Bits(data: bytes): (s: seq<bool>)
    ensures |s| == 8 * |data|
  {
    if data == [] then [] else LowBits(Wide(data[0]), 8) + Bits(data[1..])
  }

  /** The register fed one bit at a time. */
  function Feed(fcs: bv16, bits: seq<bool>): bv16
    decreases |bits|
  {
    if bits == [] then fcs else Feed(Shift(Xor(fcs, Bit(bits[0]))), bits[1..])
  }

  /** Where two bit strings differ. */
  function Difference(x: seq<bool>, y: seq<bool>): (d: seq<bool>)
    requires |x| == |y|
    ensures |d| == |x|
    ensures forall i :: 0 <= i < |d| ==> d[i] == (x[i] != y[i])
  {
    seq(|x|, i requires 0 <= i < |x| => x[i] != y[i])
  }

  // ----------------------------------------------------- bit-wise and byte-wise agree

  lemma {:induction false} FeedAppend(fcs: bv16, x: seq<bool>, y: seq<bool>)
    ensures Feed(fcs, x + y) == Feed(Feed(fcs, x), y)
    decreases |x|
  {
    hide Shift, Xor, Bit;
    if x == [] {
      assert x + y == y;
    } else {
      assert (x + y)[1..] == x[1..] + y;
      FeedAppend(Shift(Xor(fcs, Bit(x[0]))), x[1..], y);
    }
  }

  function Halves(v: bv16, n: nat): bv16
    decreases n
  {
    if n == 0 then v else Halves(Half(v), n - 1)
  }

  lemma SplitLow(v: bv16)
    ensures v == Xor(Bit(Low(v)), Twice(Half(v)))
    ensures Half(Twice(Half(v))) == Half(v) && !Low(Twice(Half(v)))
  {
  }

  lemma ShiftOfSplit(fcs: bv16, v: bv16)
    ensures Shift(Xor(fcs, v)) == Xor(Shift(Xor(fcs, Bit(Low(v)))), Half(v))
  {
    hide Xor, Half, Low, Bit, Twice;
    var b, t := Bit(Low(v)), Twice(Half(v));
    SplitLow(v);
    XorAssoc(fcs, b, t);
    ShiftLinear(Xor(fcs, b), t);
    assert Shift(t) == Half(v);
  }

  /** Feeding the low bits of a word that has no others is one XOR and that many shifts. */
  lemma {:induction false} FeedLowBits(fcs: bv16, v: bv16, n: nat)
    requires Halves(v, n) == 0
    ensures Feed(fcs, LowBits(v, n)) == Shifts(Xor(fcs, v), n)
    decreases n
  {
    hide Shift, Xor, Half, Low, Bit;
    if n == 0 {
      XorUnit(fcs);
    } else {
      ShiftOfSplit(fcs, v);
      assert LowBits(v, n)[1..] == LowBits(Half(v), n - 1);
      FeedLowBits(Shift(Xor(fcs, Bit(Low(v)))), Half(v), n - 1);
    }
  }

  /** `v` has none but its `n` low bits set. */
  predicate Bounded(v: bv16, n: nat) {
    v <= match n
         case 0 => 0x0000
         case 1 => 0x0001
         case 2 => 0x0003
         case 3 => 0x0007
         case 4 => 0x000f
         case 5 => 0x001f
         case 6 => 0x003f
         case 7 => 0x007f
         case 8 => 0x00ff
         case 9 => 0x01ff
         case 10 => 0x03ff
         case 11 => 0x07ff
         case 12 => 0x0fff
         case 13 => 0x1fff
         case 14 => 0x3fff
         case 15 => 0x7fff
         case _ => 0xffff
  }

  lemma HalfBounded(v: bv16, n: nat)
    requires n < 16 && Bounded(v, n + 1)
    ensures Bounded(Half(v), n)
  {
  }

  lemma BoundedExtremes(v: bv16, b: byte)
    ensures Bounded(v, 0) <==> v == 0
    ensures Bounded(v, 16) && Bounded(Wide(b), 8)
  {
  }

  lemma {:induction false} HalvesOfBounded(v: bv16, n: nat)
    requires n <= 16 && Bounded(v, n)
    ensures Halves(v, n) == 0
    decreases n
  {
    hide Half, Bounded;
    if n == 0 {
      BoundedExtremes(v, 0);
    } else {
      HalfBounded(v, n - 1);
      HalvesOfBounded(Half(v), n - 1);
    }
  }

  lemma {:induction false} RegisterIsFeed(fcs: bv16, data: bytes)
    ensures Register(fcs, data) == Feed(fcs, Bits(data))
    decreases |data|
  {
    hide Shift, Xor, Wide, Bounded;
    if data != [] {
      BoundedExtremes(0, data[0]);
      HalvesOfBounded(Wide(data[0]), 8);
      FeedLowBits(fcs, Wide(data[0]), 8);
      RegisterIsFeed(Update(fcs, data[0]), data[1..]);
      FeedAppend(fcs, LowBits(Wide(data[0]), 8), Bits(data[1..]));
    }
  }

  // ------------------------------------------------------------ linearity over inputs

  lemma BitDifference(x: bool, y: bool)
    ensures Bit(x != y) == Xor(Bit(x), Bit(y))
  {
  }

  lemma {:induction false} FeedLinear(a: bv16, b: bv16, x: seq<bool>, y: seq<bool>)
    requires |x| == |y|
    ensures Feed(Xor(a, b), Difference(x, y)) == Xor(Feed(a, x), Feed(b, y))
    decreases |x|
  {
    hide *;
    var d := Difference(x, y);
    FeedStep(Xor(a, b), d);
    FeedStep(a, x);
    FeedStep(b, y);
    if x != [] {
      DifferenceStep(x, y);
      BitDifference(x[0], y[0]);
      XorMiddle(a, b, Bit(x[0]), Bit(y[0]));
      ShiftLinear(Xor(a, Bit(x[0])), Xor(b, Bit(y[0])));
      FeedLinear(Shift(Xor(a, Bit(x[0]))), Shift(Xor(b, Bit(y[0]))), x[1..], y[1..]);
    }
  }

  lemma FeedStep(fcs: bv16, bits: seq<bool>)
    ensures Feed(fcs, bits) == if bits == [] then fcs else Feed(Shift(Xor(fcs, Bit(bits[0]))), bits[1..])
  {
    hide Shift, Xor, Bit;
  }

  lemma DifferenceStep(x: seq<bool>, y: seq<bool>)
    requires |x| == |y| > 0
    ensures Difference(x, y)[0] == (x[0] != y[0]) && Difference(x, y)[1..] == Difference(x[1..], y[1..])
  {
  }

  /** An error slips through exactly when the register, started at zero, maps the error
      pattern to zero. */
  lemma UndetectedExactly(sent: bytes, received: bytes)
    requires |sent| == |received| && Accepts(sent)
    ensures Accepts(received) <==> Feed(0, Difference(Bits(sent), Bits(received))) == 0
  {
    hide Xor, Register, Feed, Bits;
    AcceptsIsResidue(sent);
    AcceptsIsResidue(received);
    RegisterIsFeed(INITIAL_FCS, sent);
    RegisterIsFeed(INITIAL_FCS, received);
    FeedLinear(INITIAL_FCS, INITIAL_FCS, Bits(sent), Bits(received));
    XorUnit(INITIAL_FCS);
    XorZero(Register(INITIAL_FCS, sent), Register(INITIAL_FCS, received));
  }

  // ------------------------------------------------------ an odd number of flipped bits

  function Count(bits: seq<bool>): nat {
    if bits == [] then 0 else (if bits[0] then 1 else 0) + Count(bits[1..])
  }

  /** Whether an odd number of the `n` low bits of `v` is set. */
  predicate Parity(v: bv16, n: nat)
    decreases n
  {
    n != 0 && Low(v) != Parity(Half(v), n - 1)
  }

  lemma {:induction false} ParityXor(a: bv16, b: bv16, n: nat)
    ensures Parity(Xor(a, b), n) == (Parity(a, n) != Parity(b, n))
    decreases n
  {
    hide Xor, Half, Low;
    if n != 0 {
      LowXor(a, b);
      HalfXor(a, b);
      ParityXor(Half(a), Half(b), n - 1);
    }
  }

  lemma ZeroIsClear()
    ensures !Low(0) && Half(0) == 0
  {
  }

  lemma {:induction false} ParityOfShort(v: bv16, n: nat)
    requires Halves(v, n) == 0
    ensures Parity(v, n + 1) == Parity(v, n)
    decreases n
  {
    ZeroIsClear();
    hide Half, Low;
    if n != 0 {
      ParityOfShort(Half(v), n - 1);
    }
  }

  /** The binary digits of FCS_POLY, lowest first. */
  lemma DigitsOfPoly()
    ensures Half(0x8408) == 0x4204 && Half(0x4204) == 0x2102 && Half(0x2102) == 0x1081
    ensures Half(0x1081) == 0x0840 && Half(0x0840) == 0x0420 && Half(0x0420) == 0x0210
    ensures Half(0x0210) == 0x0108 && Half(0x0108) == 0x0084 && Half(0x0084) == 0x0042
    ensures Half(0x0042) == 0x0021 && Half(0x0021) == 0x0010 && Half(0x0010) == 0x0008
    ensures Half(0x0008) == 0x0004 && Half(0x0004) == 0x0002 && Half(0x0002) == 0x0001
    ensures !Low(0x8408) && !Low(0x4204) && !Low(0x2102) && Low(0x1081)
    ensures !Low(0x0840) && !Low(0x0420) && !Low(0x0210) && !Low(0x0108)
    ensures !Low(0x0084) && !Low(0x0042) && Low(0x0021) && !Low(0x0010)
    ensures !Low(0x0008) && !Low(0x0004) && !Low(0x0002) && Low(0x0001)
    ensures Half(0x0001) == 0
  {
  }

  lemma ParityOfPoly()
    ensures Parity(FCS_POLY, 16)
  {
    DigitsOfPoly();
    hide Half, Low;
    assert Parity(0x0001, 1) && Parity(0x0010, 5) && !Parity(0x0840, 12) && Parity(0x8408, 16);
  }

  /** FCS_POLY has an odd number of bits, so shifting one bit out into it keeps parity. */
  lemma ParityOfShift(v: bv16)
    ensures Parity(Shift(v), 16) == Parity(v, 16)
  {
    hide Xor, Half, Low, Bounded;
    BoundedExtremes(v, 0);
    HalvesOfBounded(v, 16);
    ParityOfShort(Half(v), 15);
    ParityOfPoly();
    ParityXor(Half(v), FCS_POLY, 16);
  }

  lemma ParityOfBit(b: bool)
    ensures Parity(Bit(b), 16) == b
  {
    ZeroIsClear();
    assert Low(Bit(b)) == b && Half(Bit(b)) == 0;
    hide Half, Low, Bit;
    ParityOfZero(15);
  }

  lemma {:induction false} ParityOfZero(n: nat)
    ensures !Parity(0, n)
  {
    ZeroIsClear();
    hide Half, Low;
    if n != 0 {
      ParityOfZero(n - 1);
    }
  }

  lemma {:induction false} ParityOfFeed(fcs: bv16, bits: seq<bool>)
    ensures Parity(Feed(fcs, bits), 16) == (Parity(fcs, 16) != (Count(bits) % 2 == 1))
    decreases |bits|
  {
    hide Shift, Xor, Bit, Parity;
    if bits != [] {
      var v := Xor(fcs, Bit(bits[0]));
      ParityOfBit(bits[0]);
      ParityXor(fcs, Bit(bits[0]), 16);
      ParityOfShift(v);
      ParityOfFeed(Shift(v), bits[1..]);
    }
  }

  /** No error that flips an odd number of bits is accepted, at any length. */
  lemma OddErrorsAreDetected(sent: bytes, received: bytes)
    requires |sent| == |received| && Accepts(sent)
    requires Count(Difference(Bits(sent), Bits(received))) % 2 == 1
    ensures !Accepts(received)
  {
    hide Parity, Feed, Bits, Accepts, Count;
    var d := Difference(Bits(sent), Bits(received));
    if Accepts(received) {
      UndetectedExactly(sent, received);
      ParityOfFeed(0, d);
      ParityOfZero(16);
      assert false;
    }
  }

  // -------------------------------------------------- bursts of up to 16 flipped bits

  function Prepend(b: bool, rest: bv16): bv16 { (if b then 1 else 0) | (rest << 1) }

  lemma PrependBounded(b: bool, rest: bv16, n: nat)
    requires n < 16 && Bounded(rest, n)
    ensures Bounded(Prepend(b, rest), n + 1)
    ensures Low(Prepend(b, rest)) == b && Half(Prepend(b, rest)) == rest
  {
  }

  /** At most 16 bits as a word, the first one lowest. */
  function Pack(bits: seq<bool>): bv16
    decreases |bits|
  {
    if bits == [] then 0 else Prepend(bits[0], Pack(bits[1..]))
  }

  lemma {:induction false} LowBitsOfPack(bits: seq<bool>)
    requires |bits| <= 16
    ensures Bounded(Pack(bits), |bits|)
    ensures LowBits(Pack(bits), |bits|) == bits && Halves(Pack(bits), |bits|) == 0
    decreases |bits|
  {
    hide Bounded, Half, Low, Prepend;
    if bits == [] {
      BoundedExtremes(0, 0);
    } else {
      LowBitsOfPack(bits[1..]);
      PrependBounded(bits[0], Pack(bits[1..]), |bits| - 1);
    }
  }

  lemma {:induction false} LowBitsOfZero(n: nat, i: nat)
    requires i < n
    ensures !LowBits(0, n)[i]
    decreases n
  {
    ZeroIsClear();
    hide Half, Low;
    if i != 0 {
      LowBitsOfZero(n - 1, i - 1);
    }
  }

  lemma {:induction false} FeedZeros(bits: seq<bool>)
    requires forall i :: 0 <= i < |bits| ==> !bits[i]
    ensures forall fcs :: Feed(fcs, bits) == Shifts(fcs, |bits|)
    decreases |bits|
  {
    forall fcs
      ensures Feed(fcs, bits) == Shifts(fcs, |bits|)
    {
      hide Shift, Xor;
      if bits != [] {
        XorUnit(fcs);
        FeedZeros(bits[1..]);
      }
    }
  }

  lemma FeedBurst(bits: seq<bool>, i: nat)
    requires |bits| <= 16 && i < |bits| && bits[i]
    ensures Feed(0, bits) != 0
  {
    hide Feed, Shifts, Xor, Pack, LowBits;
    var v := Pack(bits);
    LowBitsOfPack(bits);
    FeedLowBits(0, v, |bits|);
    XorUnit(v);
    ShiftsZero(v, |bits|);
    if v == 0 {
      LowBitsOfZero(|bits|, i);
    }
  }

  /** No error confined to 16 consecutive bits is accepted, at any length. */
  lemma BurstErrorsAreDetected(sent: bytes, received: bytes, start: nat, i: nat)
    requires |sent| == |received| && Accepts(sent)
    requires i < 8 * |sent| && Difference(Bits(sent), Bits(received))[i]
    requires forall j :: 0 <= j < 8 * |sent| && Difference(Bits(sent), Bits(received))[j]
               ==> start <= j < start + 16
    ensures !Accepts(received)
  {
    hide Feed, Bits, Accepts, Shifts;
    var d := Difference(Bits(sent), Bits(received));
    var end := if start + 16 <= |d| then start + 16 else |d|;
    var before, burst, after := d[..start], d[start..end], d[end..];
    assert d == before + burst + after;
    UndetectedExactly(sent, received);
    FeedAppend(0, before + burst, after);
    FeedAppend(0, before, burst);
    FeedZeros(before);
    ShiftsZero(0, |before|);
    FeedBurst(burst, i - start);
    FeedZeros(after);
    ShiftsZero(Feed(0, burst), |after|);
  }
}
