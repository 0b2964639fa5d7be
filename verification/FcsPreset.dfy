/** What the register starts from: the FCS of a frame as a remainder, the preset included,
    and what the preset is for. */
module FcsPreset {
  import opened Bytes
  import opened Fcs
  import opened FcsErrors
  import opened FcsLaws
  import opened FcsOrder
  import opened FcsPolynomial
  import opened Wrappers
  import Hdlc

  // ------------------------------------------------------------------- the FCS of a frame

  /** 1 + x + ... + x^15. */
  const ONES: Poly := {0, 1, 2, 3, 4, 5, 6, 7, 8, 9, 10, 11, 12, 13, 14, 15}

  lemma DigitsOfOnes()
    ensures Half(0xffff) == 0x7fff && Half(0x7fff) == 0x3fff && Half(0x3fff) == 0x1fff && Half(0x1fff) == 0x0fff
    ensures Half(0x0fff) == 0x07ff && Half(0x07ff) == 0x03ff && Half(0x03ff) == 0x01ff && Half(0x01ff) == 0x00ff
    ensures Half(0x00ff) == 0x007f && Half(0x007f) == 0x003f && Half(0x003f) == 0x001f && Half(0x001f) == 0x000f
    ensures Half(0x000f) == 0x0007 && Half(0x0007) == 0x0003 && Half(0x0003) == 0x0001
    ensures Low(0xffff) && Low(0x7fff) && Low(0x3fff) && Low(0x1fff) && Low(0x0fff) && Low(0x07ff) && Low(0x03ff)
    ensures Low(0x01ff) && Low(0x00ff) && Low(0x007f) && Low(0x003f) && Low(0x001f) && Low(0x000f) && Low(0x0007)
    ensures Low(0x0003) && Low(0x0001)
  {
  }

  lemma PolyOfOnes()
    ensures PolyOfWord(0xffff, 16) == ONES
  {
    DigitsOfOnes();
    hide Half, Low, Sum;
    assert PolyOfWord(0x0001, 1) == {0};
    assert PolyOfWord(0x0003, 2) == {0, 1};
    assert PolyOfWord(0x0007, 3) == {0, 1, 2};
    assert PolyOfWord(0x000f, 4) == {0, 1, 2, 3};
    assert PolyOfWord(0x001f, 5) == {0, 1, 2, 3, 4};
    assert PolyOfWord(0x003f, 6) == {0, 1, 2, 3, 4, 5};
    assert PolyOfWord(0x007f, 7) == {0, 1, 2, 3, 4, 5, 6};
    assert PolyOfWord(0x00ff, 8) == {0, 1, 2, 3, 4, 5, 6, 7};
    assert PolyOfWord(0x01ff, 9) == {0, 1, 2, 3, 4, 5, 6, 7, 8};
    assert PolyOfWord(0x03ff, 10) == {0, 1, 2, 3, 4, 5, 6, 7, 8, 9};
    assert PolyOfWord(0x07ff, 11) == {0, 1, 2, 3, 4, 5, 6, 7, 8, 9, 10};
    assert PolyOfWord(0x0fff, 12) == {0, 1, 2, 3, 4, 5, 6, 7, 8, 9, 10, 11};
    assert PolyOfWord(0x1fff, 13) == {0, 1, 2, 3, 4, 5, 6, 7, 8, 9, 10, 11, 12};
    assert PolyOfWord(0x3fff, 14) == {0, 1, 2, 3, 4, 5, 6, 7, 8, 9, 10, 11, 12, 13};
    assert PolyOfWord(0x7fff, 15) == {0, 1, 2, 3, 4, 5, 6, 7, 8, 9, 10, 11, 12, 13, 14};
    assert PolyOfWord(0xffff, 16) == ONES;
  }

  /** The complement of the FCS is the remainder, modulo the generator, of the payload times
      x^16 with its first 16 bits flipped: all ones, as many places up as the payload is
      long, are added to it (sections C.1 and C.2 of RFC 1662). */
  lemma FrameFcsDivides(p: bytes) returns (q: Poly)
    ensures Sum(Times(ONES, 8 * |p|), Times(PolyOf(Bits(p)), 16))
         == Sum(TimesGenerator(q), PolyOfWord(!FrameFcs(p), 16))
    ensures |Bits(p)| == 8 * |p| && Below(PolyOfWord(!FrameFcs(p), 16), 16)
  {
    hide Sum, Times, TimesGenerator, PolyOfWord, PolyOf, Register, Feed;
    q := Quotient(0xffff, Bits(p));
    BitsLength(p);
    PolyOfOnes();
    RegisterIsFeed(INITIAL_FCS, p);
    RegisterDivides(0xffff, Bits(p));
    NotFcs(p);
    PolyOfWordBelow(!FrameFcs(p), 16);
  }

  lemma NotFcs(p: bytes)
    ensures !FrameFcs(p) == Register(INITIAL_FCS, p)
  {
    hide Register;
  }

  lemma {:induction false} BitsLength(p: bytes)
    ensures |Bits(p)| == 8 * |p|
    decreases |p|
  {
    if p != [] {
      BitsLength(p[1..]);
    }
  }

  /** A frame with nothing in it. */
  lemma EmptyFrame()
    ensures Hdlc.Encoded([]) == [0x7e, 0x00, 0x00, 0x7e]
    ensures Hdlc.Decoded([0x7e, 0x00, 0x00, 0x7e]) == Ok([])
  {
    Hdlc.RoundTripBounds([]);
  }

  // --------------------------------------------------------------- zero bytes up front

  /** What `d` more places add to `v`. */
  function Moved(v: bv16, d: nat): bv16 { Xor(Shifts(v, d), v) }

  lemma MovedIsLinear(a: bv16, b: bv16, d: nat)
    ensures Moved(Xor(a, b), d) == Xor(Moved(a, d), Moved(b, d))
  {
    hide Xor, Shift;
    ShiftsLinear(a, b, d);
    XorMiddle(Shifts(a, d), Shifts(b, d), a, b);
  }

  lemma MovedCommutes(v: bv16, d: nat, n: nat)
    ensures Moved(Shifts(v, n), d) == Shifts(Moved(v, d), n)
  {
    hide Xor, Shift;
    ShiftsAdd(v, n, d);
    ShiftsAdd(v, d, n);
    ShiftsLinear(Shifts(v, d), v, n);
  }

  /** It has an even number of bits. */
  lemma MovedIsEven(v: bv16, d: nat)
    ensures !Parity(Moved(v, d), 16)
  {
    hide Xor, Shift, Parity;
    ParityOfShifts(v, d);
    ParityXor(Shifts(v, d), v, 16);
  }

  lemma {:induction false} ParityOfShifts(v: bv16, n: nat)
    ensures Parity(Shifts(v, n), 16) == Parity(v, 16)
    decreases n
  {
    hide Shift, Parity;
    if n > 0 {
      ParityOfShift(v);
      ParityOfShifts(Shift(v), n - 1);
    }
  }

  /** x + 1 has one multiple, beside zero, that a place more does not change, and that one
      has an odd number of bits. */
  lemma FixedIsZero(v: bv16)
    requires Shift(v) == v && !Parity(v, 16)
    ensures v == 0
  {
    FixedCases(v);
    if v != 0 {
      ParityOfFixed();
      assert false;
    }
  }

  lemma FixedCases(v: bv16)
    requires Shift(v) == v
    ensures v == 0 || v == 0xf80f
  {
  }

  lemma ParityOfFixed()
    ensures Parity(0xf80f, 16)
  {
    assert Half(0xf80f) == 0x7c07 && Half(0x7c07) == 0x3e03 && Half(0x3e03) == 0x1f01 && Half(0x1f01) == 0x0f80;
    assert Half(0x0f80) == 0x07c0 && Half(0x07c0) == 0x03e0 && Half(0x03e0) == 0x01f0 && Half(0x01f0) == 0x00f8;
    assert Half(0x00f8) == 0x007c && Half(0x007c) == 0x003e && Half(0x003e) == 0x001f && Half(0x001f) == 0x000f;
    assert Half(0x000f) == 0x0007 && Half(0x0007) == 0x0003 && Half(0x0003) == 0x0001 && Half(0x0001) == 0x0000;
    assert Low(0xf80f) && Low(0x7c07) && Low(0x3e03) && Low(0x1f01) && !Low(0x0f80) && !Low(0x07c0) && !Low(0x03e0);
    assert !Low(0x01f0) && !Low(0x00f8) && !Low(0x007c) && !Low(0x003e) && Low(0x001f) && Low(0x000f) && Low(0x0007);
    assert Low(0x0003) && Low(0x0001);
    hide Half, Low;
    assert Parity(0x0001, 1) && !Parity(0x0003, 2) && Parity(0x0007, 3) && !Parity(0x000f, 4) && Parity(0x001f, 5);
    assert Parity(0x00f8, 8) && Parity(0x0f80, 12) && Parity(0xf80f, 16);
  }

  lemma OnesOnce()
    ensures Xor(Shift(0xffff), 0xffff) == Xor(FCS_POLY, ONE)
    ensures Shifts(ONE, 16) == FCS_POLY
  {
    assert Shift(0xffff) == 0xfbf7 && Xor(0xfbf7, 0xffff) == 0x0408 && Xor(0x8408, 0x8000) == 0x0408;
    assert Shift(0x0001) == 0x8408;
    hide Shift, Xor;
    LastPower();
    ShiftsAdd(ONE, 15, 1);
    assert Shifts(0x0001, 1) == 0x8408;
  }

  /** x + 1 times the one is x^16 + 1 times the other. */
  lemma MovedOnes(d: nat)
    ensures Xor(Shift(Moved(0xffff, d)), Moved(0xffff, d)) == Xor(Shifts(Moved(ONE, d), 16), Moved(ONE, d))
  {
    hide Shift, Xor, Moved;
    OnesOnce();
    MovedCommutes(0xffff, d, 1);
    MovedCommutes(ONE, d, 16);
    MovedIsLinear(Shift(0xffff), 0xffff, d);
    MovedIsLinear(FCS_POLY, ONE, d);
    assert Shifts(0xffff, 1) == Shift(0xffff);
    assert Shifts(Moved(0xffff, d), 1) == Shift(Moved(0xffff, d));
  }

  /** What 16 places do not change no place changes: 16 and the order of x have no common
      divisor. */
  lemma Coprime(v: bv16, d: nat)
    requires v == Moved(ONE, d) && Shifts(v, 16) == v
    ensures Shift(v) == v
  {
    hide Shift, Xor, Moved;
    PowerOfPeriod();
    MovedCommutes(ONE, d, 32767);
    assert Shifts(v, 32767) == v;
    Repeats(v, 16, 2047);
    ShiftsAdd(v, 16 * 2047, 15);
    assert Shifts(v, 15) == v;
    ShiftsAdd(v, 15, 1);
    assert Shifts(v, 1) == Shift(v);
  }

  lemma {:induction false} Repeats(v: bv16, n: nat, k: nat)
    requires Shifts(v, n) == v
    ensures Shifts(v, n * k) == v
    decreases k
  {
    hide Shift;
    if k > 0 {
      Repeats(v, n, k - 1);
      ShiftsAdd(v, n * (k - 1), n);
      assert n * (k - 1) + n == n * k;
    } else {
      assert n * 0 == 0;
    }
  }

  /** The preset comes back after exactly the multiples of the order. */
  lemma PresetReturnsExactly(d: nat)
    ensures Shifts(0xffff, d) == 0xffff <==> d % PERIOD == 0
  {
    hide Shift, Xor, Moved, Parity, Shifts;
    PowerIsOneExactly(d);
    var u, v := Moved(0xffff, d), Moved(ONE, d);
    MovedOnes(d);
    MovedIsNothing(0xffff, d);
    MovedIsNothing(ONE, d);
    MovedIsEven(0xffff, d);
    MovedIsEven(ONE, d);
    if u == 0 {
      ShiftZero(0);
      XorZero(Shift(u), u);
      XorZero(Shifts(v, 16), v);
      Coprime(v, d);
      FixedIsZero(v);
    } else if v == 0 {
      ShiftsZero(0, 16);
      XorZero(Shifts(v, 16), v);
      XorZero(Shift(u), u);
      FixedIsZero(u);
    }
  }

  lemma MovedIsNothing(v: bv16, d: nat)
    ensures Moved(v, d) == 0 <==> Shifts(v, d) == v
    ensures v == ONE ==> Shifts(v, d) == Power(d)
  {
    hide Xor, Shift;
    XorZero(Shifts(v, d), v);
  }

  lemma {:induction false} RegisterOfZeros(fcs: bv16, k: nat)
    ensures Register(fcs, Zeros(k)) == Shifts(fcs, 8 * k)
    decreases k
  {
    hide Shift, Xor;
    if k > 0 {
      assert Zeros(k)[1..] == Zeros(k - 1);
      WideZero(fcs);
      RegisterOfZeros(Shifts(fcs, 8), k - 1);
      ShiftsAdd(fcs, 8, 8 * (k - 1));
    }
  }

  lemma WideZero(fcs: bv16)
    ensures Xor(fcs, Wide(0)) == fcs
  {
  }

  lemma {:induction false} RegisterInjective(a: bv16, b: bv16, data: bytes)
    ensures Register(a, data) == Register(b, data) <==> a == b
    decreases |data|
  {
    hide Shift, Xor, Wide;
    if data != [] {
      var w := Wide(data[0]);
      ShiftsInjective(Xor(a, w), Xor(b, w), 8);
      XorCancels(a, b, w);
      RegisterInjective(Update(a, data[0]), Update(b, data[0]), data[1..]);
    }
  }

  lemma XorCancels(a: bv16, b: bv16, w: bv16)
    ensures Xor(a, w) == Xor(b, w) <==> a == b
  {
  }

  /** What the preset is for: zero bytes put in front of accepted content are noticed unless
      there are a multiple of 32767 of them. From a register of zeros none ever would be. */
  lemma LeadingZerosExactly(content: bytes, k: nat)
    requires Accepts(content)
    ensures Accepts(Zeros(k) + content) <==> k % 32767 == 0
  {
    AcceptsIsLong(content);
    hide Accepts, Register, Shifts;
    AcceptsIsResidue(content);
    AcceptsIsResidue(Zeros(k) + content);
    RegisterAppend(INITIAL_FCS, Zeros(k), content);
    RegisterOfZeros(INITIAL_FCS, k);
    RegisterInjective(Register(INITIAL_FCS, Zeros(k)), INITIAL_FCS, content);
    PresetReturnsExactly(8 * k);
    EightTimes(k);
  }

  lemma AcceptsIsLong(content: bytes)
    requires Accepts(content)
    ensures |content| >= 2
  {
  }

  lemma EightTimes(k: nat)
    ensures (8 * k) % 32767 == 0 <==> k % 32767 == 0
  {
    if (8 * k) % 32767 == 0 {
      var m := 8 * k / 32767;
      assert k == 32767 * (4096 * m - k);
    }
  }
}
