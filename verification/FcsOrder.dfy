/** The order of x modulo x^16 + x^12 + x^5 + 1 is 32767, so two flipped bits fewer than
    32767 places apart are always detected. Powers of x are computed by repeated
    squaring. */
module FcsOrder {
  import opened Bytes
  import opened Fcs
  import opened FcsLaws
  import opened FcsErrors

  const ONE: bv16 := 0x8000
  const PERIOD := 32767

  /** x to the power n; bit 15 - k of the register is the coefficient of x^k. */
  function Power(n: nat): bv16 { Shifts(ONE, n) }

  function Pick(c: bool, v: bv16): bv16 { if c then v else 0 }

  /** x to the power 2k. */
  function EvenPower(k: nat): bv16
    requires k < 16
  {
    match k
    case 0 => 0x8000
    case 1 => 0x2000
    case 2 => 0x0800
    case 3 => 0x0200
    case 4 => 0x0080
    case 5 => 0x0020
    case 6 => 0x0008
    case 7 => 0x0002
    case 8 => 0x8408
    case 9 => 0x2102
    case 10 => 0x8c48
    case 11 => 0x2312
    case 12 => 0x8ccc
    case 13 => 0x2333
    case 14 => 0xcec0
    case 15 => 0x33b0
  }

  /** The square of the polynomial whose coefficients are the `n` low bits of `v`, the
      lowest bit being that of x^(n-1). */
  function SquareOf(v: bv16, n: nat): bv16
    requires n <= 16
    decreases n
  {
    if n == 0 then 0 else Xor(Pick(Low(v), EvenPower(n - 1)), SquareOf(Half(v), n - 1))
  }

  lemma PickXor(c: bool, d: bool, v: bv16)
    ensures Pick(c != d, v) == Xor(Pick(c, v), Pick(d, v))
  {
    XorUnit(v);
    XorUnit(0);
  }

  lemma PickShift(c: bool, v: bv16)
    ensures Shift(Pick(c, v)) == Pick(c, Shift(v))
  {
    ShiftZero(0);
  }

  lemma EvenPowerStep(k: nat)
    requires k < 15
    ensures EvenPower(k + 1) == Shift(Shift(EvenPower(k)))
  {
  }

  lemma {:induction false} SquareLinear(a: bv16, b: bv16, n: nat)
    requires n <= 16
    ensures SquareOf(Xor(a, b), n) == Xor(SquareOf(a, n), SquareOf(b, n))
    decreases n
  {
    hide Xor, Half, Low, Pick, EvenPower;
    if n == 0 {
      XorUnit(0);
    } else {
      var e := EvenPower(n - 1);
      LowXor(a, b);
      HalfXor(a, b);
      PickXor(Low(a), Low(b), e);
      SquareLinear(Half(a), Half(b), n - 1);
      XorMiddle(Pick(Low(a), e), Pick(Low(b), e), SquareOf(Half(a), n - 1), SquareOf(Half(b), n - 1));
    }
  }

  /** One more place multiplies the polynomial by x, hence its square by x^2. */
  lemma {:induction false} SquareWidened(v: bv16, n: nat)
    requires n < 16 && Halves(v, n) == 0
    ensures SquareOf(v, n + 1) == Shift(Shift(SquareOf(v, n)))
    decreases n
  {
    ZeroIsClear();
    ShiftZero(0);
    hide Xor, Half, Low, EvenPower, Shift;
    if n == 0 {
      XorUnit(0);
    } else {
      hide Pick;
      var e := EvenPower(n - 1);
      EvenPowerStep(n - 1);
      SquareWidened(Half(v), n - 1);
      PickShift(Low(v), e);
      PickShift(Low(v), Shift(e));
      ShiftLinear(Pick(Low(v), e), SquareOf(Half(v), n - 1));
      ShiftLinear(Shift(Pick(Low(v), e)), Shift(SquareOf(Half(v), n - 1)));
    }
  }

  // ---------------------------------------------------------- squaring, written out

  /** `SquareOf(v, 16)` without its recursion, so that it can be computed. */
  function Square(v: bv16): bv16 {
    var h1 := Half(v);
    var h2 := Half(h1);
    var h3 := Half(h2);
    var h4 := Half(h3);
    var h5 := Half(h4);
    var h6 := Half(h5);
    var h7 := Half(h6);
    var h8 := Half(h7);
    var h9 := Half(h8);
    var h10 := Half(h9);
    var h11 := Half(h10);
    var h12 := Half(h11);
    var h13 := Half(h12);
    var h14 := Half(h13);
    var h15 := Half(h14);
    Xor(Pick(Low(v), 0x33b0), Xor(Pick(Low(h1), 0xcec0), Xor(Pick(Low(h2), 0x2333), Xor(Pick(Low(h3), 0x8ccc),
    Xor(Pick(Low(h4), 0x2312), Xor(Pick(Low(h5), 0x8c48), Xor(Pick(Low(h6), 0x2102), Xor(Pick(Low(h7), 0x8408),
    Xor(Pick(Low(h8), 0x0002), Xor(Pick(Low(h9), 0x0008), Xor(Pick(Low(h10), 0x0020), Xor(Pick(Low(h11), 0x0080),
    Xor(Pick(Low(h12), 0x0200), Xor(Pick(Low(h13), 0x0800),
        Xor(Pick(Low(h14), 0x2000), Xor(Pick(Low(h15), 0x8000), 0))))))))))))))))
  }

  lemma SquareUnfolds(v: bv16, n: nat)
    requires 0 < n <= 16
    ensures SquareOf(v, n) == Xor(Pick(Low(v), EvenPower(n - 1)), SquareOf(Half(v), n - 1))
  {
    hide Xor, Half, Low, Pick, EvenPower;
  }

  lemma SquareOfNone(v: bv16)
    ensures SquareOf(v, 0) == 0
  {
  }

  lemma SquareIsSquareOf(v: bv16)
    ensures Square(v) == SquareOf(v, 16)
  {
    assert EvenPower(0) == 0x8000 && EvenPower(1) == 0x2000 && EvenPower(2) == 0x0800 && EvenPower(3) == 0x0200;
    assert EvenPower(4) == 0x0080 && EvenPower(5) == 0x0020 && EvenPower(6) == 0x0008 && EvenPower(7) == 0x0002;
    assert EvenPower(8) == 0x8408 && EvenPower(9) == 0x2102 && EvenPower(10) == 0x8c48 && EvenPower(11) == 0x2312;
    assert EvenPower(12) == 0x8ccc && EvenPower(13) == 0x2333 && EvenPower(14) == 0xcec0 && EvenPower(15) == 0x33b0;
    hide Xor, Half, Low, Pick, SquareOf, EvenPower;
    var h1 := Half(v);
    var h2 := Half(h1);
    var h3 := Half(h2);
    var h4 := Half(h3);
    var h5 := Half(h4);
    var h6 := Half(h5);
    var h7 := Half(h6);
    var h8 := Half(h7);
    var h9 := Half(h8);
    var h10 := Half(h9);
    var h11 := Half(h10);
    var h12 := Half(h11);
    var h13 := Half(h12);
    var h14 := Half(h13);
    var h15 := Half(h14);
    var h16 := Half(h15);
    SquareUnfolds(v, 16);
    SquareUnfolds(h1, 15);
    SquareUnfolds(h2, 14);
    SquareUnfolds(h3, 13);
    SquareUnfolds(h4, 12);
    SquareUnfolds(h5, 11);
    SquareUnfolds(h6, 10);
    SquareUnfolds(h7, 9);
    SquareUnfolds(h8, 8);
    SquareUnfolds(h9, 7);
    SquareUnfolds(h10, 6);
    SquareUnfolds(h11, 5);
    SquareUnfolds(h12, 4);
    SquareUnfolds(h13, 3);
    SquareUnfolds(h14, 2);
    SquareUnfolds(h15, 1);
    SquareOfNone(h16);
  }

  lemma Squares0()
    ensures Square(0x0001) == 0x33b0
    ensures Square(0x0004) == 0x2333
    ensures Square(0x0040) == 0x2102
    ensures Square(0x0080) == 0x8408
    ensures Square(0x00a2) == 0xc680
    ensures Square(0x0100) == 0x0002
    ensures Square(0x0200) == 0x0008
    ensures Square(0x042b) == 0xfdd4
    ensures Square(0x0676) == 0x6383
    ensures Square(0x0800) == 0x0080
    ensures Square(0x0aec) == 0x8635
    ensures Square(0x1000) == 0x0200
    ensures Square(0x11c2) == 0x69c8
  {
  }

  lemma Squares1()
    ensures Square(0x157e) == 0xed45
    ensures Square(0x1688) == 0x0aec
    ensures Square(0x19d8) == 0x0856
    ensures Square(0x2000) == 0x0800
    ensures Square(0x20f3) == 0xff20
    ensures Square(0x2102) == 0xc6c2
    ensures Square(0x2420) == 0x8468
    ensures Square(0x3444) == 0x0811
    ensures Square(0x4000) == 0x2000
    ensures Square(0x46d8) == 0x2afc
    ensures Square(0x5172) == 0x629a
    ensures Square(0x629a) == 0xcd1e
    ensures Square(0x6383) == 0x5172
  {
  }

  lemma Squares2()
    ensures Square(0x65f1) == 0x11c2
    ensures Square(0x69c8) == 0x0144
    ensures Square(0x7022) == 0x6888
    ensures Square(0x7eea) == 0x41e6
    ensures Square(0x7f90) == 0x8db0
    ensures Square(0x8000) == 0x8000
    ensures Square(0x8408) == 0x0cec
    ensures Square(0x9591) == 0x1688
    ensures Square(0xc680) == 0x2420
    ensures Square(0xc6c2) == 0xcbe2
    ensures Square(0xcd1e) == 0xe28f
    ensures Square(0xf2aa) == 0xe044
  {
  }

  lemma TopSquare()
    ensures Shift(Shift(EvenPower(15))) == Square(FCS_POLY)
  {
    assert Square(0x8408) == 0x0cec;
    assert Shift(Shift(EvenPower(15))) == 0x0cec;
  }

  lemma ShiftCases(v: bv16)
    ensures Shift(v) == if Low(v) then Xor(Half(v), FCS_POLY) else Half(v)
  {
  }

  lemma SquareOfShift(v: bv16)
    ensures SquareOf(Shift(v), 16) == Shift(Shift(SquareOf(v, 16)))
  {
    TopSquare();
    ShiftZero(0);
    hide Shift, Xor, Half, Low, Pick, EvenPower, Square, Bounded, SquareOf;
    var h, e := Half(v), EvenPower(15);
    var rest := SquareOf(h, 15);
    ShiftCases(v);
    SquareUnfolds(v, 16);
    BoundedExtremes(v, 0);
    HalfBounded(v, 15);
    HalvesOfBounded(h, 15);
    SquareWidened(h, 15);
    SquareLinear(h, FCS_POLY, 16);
    SquareIsSquareOf(FCS_POLY);
    ShiftsOfSum(Pick(Low(v), e), rest);
    PickShift(Low(v), e);
    PickShift(Low(v), Shift(e));
    PickCases(Low(v), Shift(Shift(e)));
    XorComm(Shift(Shift(e)), Shift(Shift(rest)));
    XorUnit(Shift(Shift(rest)));
  }

  lemma PickCases(c: bool, v: bv16)
    ensures Pick(c, v) == if c then v else 0
  {
  }

  lemma ShiftsOfSum(a: bv16, b: bv16)
    ensures Shift(Shift(Xor(a, b))) == Xor(Shift(Shift(a)), Shift(Shift(b)))
  {
    hide Xor, Shift;
    ShiftLinear(a, b);
    ShiftLinear(Shift(a), Shift(b));
  }

  lemma PowerStep(n: nat)
    ensures Power(n + 1) == Shift(Power(n))
  {
    hide Shift;
    ShiftsAdd(ONE, n, 1);
  }

  lemma {:induction false} PowerOfDouble(n: nat)
    ensures Power(2 * n) == Square(Power(n))
  {
    hide Shift, Square, SquareOf, Power;
    if n == 0 {
      Squares0();
      Squares1();
      Squares2();
      PowerZero();
    } else {
      var v := Power(n - 1);
      PowerOfDouble(n - 1);
      PowerStep(n - 1);
      PowerStep(2 * n - 2);
      PowerStep(2 * n - 1);
      SquareIsSquareOf(v);
      SquareIsSquareOf(Shift(v));
      SquareOfShift(v);
    }
  }

  lemma Doubling(n: nat, v: bv16, w: bv16, u: bv16)
    requires Power(n) == v && Square(v) == w && Shift(w) == u
    ensures Power(2 * n) == w && Power(2 * n + 1) == u
  {
    hide Shift, Square, Power;
    PowerOfDouble(n);
    PowerStep(2 * n);
  }

  lemma Turns()
    ensures Shift(0x0002) == 0x0001 && Shift(0x0008) == 0x0004 && Shift(0x0080) == 0x0040
    ensures Shift(0x0144) == 0x00a2 && Shift(0x0200) == 0x0100 && Shift(0x0800) == 0x0400
    ensures Shift(0x0811) == 0x8000 && Shift(0x0856) == 0x042b && Shift(0x0aec) == 0x0576
    ensures Shift(0x0cec) == 0x0676 && Shift(0x11c2) == 0x08e1 && Shift(0x1688) == 0x0b44
    ensures Shift(0x2000) == 0x1000 && Shift(0x2102) == 0x1081 && Shift(0x2333) == 0x9591
    ensures Shift(0x2420) == 0x1210 && Shift(0x2afc) == 0x157e && Shift(0x33b0) == 0x19d8
    ensures Shift(0x41e6) == 0x20f3 && Shift(0x5172) == 0x28b9 && Shift(0x629a) == 0x314d
    ensures Shift(0x6383) == 0xb5c9 && Shift(0x6888) == 0x3444 && Shift(0x69c8) == 0x34e4
    ensures Shift(0x8000) == 0x4000 && Shift(0x8408) == 0x4204 && Shift(0x8468) == 0x4234
    ensures Shift(0x8635) == 0xc712 && Shift(0x8db0) == 0x46d8 && Shift(0xc680) == 0x6340
    ensures Shift(0xc6c2) == 0x6361 && Shift(0xcbe2) == 0x65f1 && Shift(0xcd1e) == 0x668f
    ensures Shift(0xe044) == 0x7022 && Shift(0xe28f) == 0xf54f && Shift(0xed45) == 0xf2aa
    ensures Shift(0xfdd4) == 0x7eea && Shift(0xff20) == 0x7f90
  {
  }

  lemma PowerZero()
    ensures Power(0) == ONE
  {
  }

  lemma PowerOfPeriod()
    ensures Power(32767) == 0x8000
  {
    hide Shift, Square, Power;
    Squares0();
    Squares1();
    Squares2();
    Turns();
    PowerZero();
    Doubling(0, 0x8000, 0x8000, 0x4000);
    Doubling(1, 0x4000, 0x2000, 0x1000);
    Doubling(3, 0x1000, 0x0200, 0x0100);
    Doubling(7, 0x0100, 0x0002, 0x0001);
    Doubling(15, 0x0001, 0x33b0, 0x19d8);
    Doubling(31, 0x19d8, 0x0856, 0x042b);
    Doubling(63, 0x042b, 0xfdd4, 0x7eea);
    Doubling(127, 0x7eea, 0x41e6, 0x20f3);
    Doubling(255, 0x20f3, 0xff20, 0x7f90);
    Doubling(511, 0x7f90, 0x8db0, 0x46d8);
    Doubling(1023, 0x46d8, 0x2afc, 0x157e);
    Doubling(2047, 0x157e, 0xed45, 0xf2aa);
    Doubling(4095, 0xf2aa, 0xe044, 0x7022);
    Doubling(8191, 0x7022, 0x6888, 0x3444);
    Doubling(16383, 0x3444, 0x0811, 0x8000);
  }

  lemma PowerOf4681()
    ensures Power(4681) == 0x4234
  {
    hide Shift, Square, Power;
    Squares0();
    Squares1();
    Squares2();
    Turns();
    PowerZero();
    Doubling(0, 0x8000, 0x8000, 0x4000);
    Doubling(1, 0x4000, 0x2000, 0x1000);
    Doubling(2, 0x2000, 0x0800, 0x0400);
    Doubling(4, 0x0800, 0x0080, 0x0040);
    Doubling(9, 0x0040, 0x2102, 0x1081);
    Doubling(18, 0x2102, 0xc6c2, 0x6361);
    Doubling(36, 0xc6c2, 0xcbe2, 0x65f1);
    Doubling(73, 0x65f1, 0x11c2, 0x08e1);
    Doubling(146, 0x11c2, 0x69c8, 0x34e4);
    Doubling(292, 0x69c8, 0x0144, 0x00a2);
    Doubling(585, 0x00a2, 0xc680, 0x6340);
    Doubling(1170, 0xc680, 0x2420, 0x1210);
    Doubling(2340, 0x2420, 0x8468, 0x4234);
  }

  lemma PowerOf1057()
    ensures Power(1057) == 0xf54f
  {
    hide Shift, Square, Power;
    Squares0();
    Squares1();
    Squares2();
    Turns();
    PowerZero();
    Doubling(0, 0x8000, 0x8000, 0x4000);
    Doubling(1, 0x4000, 0x2000, 0x1000);
    Doubling(2, 0x2000, 0x0800, 0x0400);
    Doubling(4, 0x0800, 0x0080, 0x0040);
    Doubling(8, 0x0080, 0x8408, 0x4204);
    Doubling(16, 0x8408, 0x0cec, 0x0676);
    Doubling(33, 0x0676, 0x6383, 0xb5c9);
    Doubling(66, 0x6383, 0x5172, 0x28b9);
    Doubling(132, 0x5172, 0x629a, 0x314d);
    Doubling(264, 0x629a, 0xcd1e, 0x668f);
    Doubling(528, 0xcd1e, 0xe28f, 0xf54f);
  }

  lemma PowerOf217()
    ensures Power(217) == 0xc712
  {
    hide Shift, Square, Power;
    Squares0();
    Squares1();
    Squares2();
    Turns();
    PowerZero();
    Doubling(0, 0x8000, 0x8000, 0x4000);
    Doubling(1, 0x4000, 0x2000, 0x1000);
    Doubling(3, 0x1000, 0x0200, 0x0100);
    Doubling(6, 0x0200, 0x0008, 0x0004);
    Doubling(13, 0x0004, 0x2333, 0x9591);
    Doubling(27, 0x9591, 0x1688, 0x0b44);
    Doubling(54, 0x1688, 0x0aec, 0x0576);
    Doubling(108, 0x0aec, 0x8635, 0xc712);
  }

  // ------------------------------------------------------------------- the order of x

  lemma PeriodDifference(a: nat, b: nat)
    requires b <= a && Power(a) == ONE && Power(b) == ONE
    ensures Power(a - b) == ONE
  {
    hide Shift;
    ShiftsAdd(ONE, a - b, b);
    ShiftsInjective(Power(a - b), ONE, b);
  }

  lemma {:induction false} PeriodMultiple(g: nat, k: nat)
    requires Power(g) == ONE
    ensures Power(g * k) == ONE
    decreases k
  {
    hide Shift;
    if k == 0 {
      PowerZero();
    } else {
      PeriodMultiple(g, k - 1);
      assert g * k == g * (k - 1) + g;
      ShiftsAdd(ONE, g * (k - 1), g);
    }
  }

  /** Two periods have a common divisor that is a period: Euclid by subtraction. */
  lemma {:induction false} CommonPeriod(a: nat, b: nat) returns (g: nat, p: nat, q: nat)
    requires a > 0 && b > 0 && Power(a) == ONE && Power(b) == ONE
    ensures 0 < g <= a && g <= b && a == g * p && b == g * q && Power(g) == ONE
    decreases a + b
  {
    hide Power;
    if a == b {
      g, p, q := a, 1, 1;
    } else if a > b {
      PeriodDifference(a, b);
      g, p, q := CommonPeriod(a - b, b);
      assert g * (p + q) == g * p + g * q;
      p := p + q;
    } else {
      PeriodDifference(b, a);
      g, p, q := CommonPeriod(a, b - a);
      assert g * (p + q) == g * p + g * q;
      q := p + q;
    }
  }

  /** 32767 = 7 * 31 * 151 has no other divisor from 2 to n. */
  predicate OnlyKnownDivisors(n: nat) {
    n <= 1 || ((n == 7 || n == 31 || n == 151 || 32767 % n != 0) && OnlyKnownDivisors(n - 1))
  }

  lemma DivisorsUpTo60()
    ensures OnlyKnownDivisors(60)
  {
    assert OnlyKnownDivisors(8) && OnlyKnownDivisors(16) && OnlyKnownDivisors(24) && OnlyKnownDivisors(32);
    assert OnlyKnownDivisors(40) && OnlyKnownDivisors(48) && OnlyKnownDivisors(56);
  }

  lemma DivisorsUpTo120()
    ensures OnlyKnownDivisors(120)
  {
    DivisorsUpTo60();
    assert OnlyKnownDivisors(68) && OnlyKnownDivisors(76) && OnlyKnownDivisors(84) && OnlyKnownDivisors(92);
    assert OnlyKnownDivisors(100) && OnlyKnownDivisors(108) && OnlyKnownDivisors(116);
  }

  lemma DivisorsUpTo181()
    ensures OnlyKnownDivisors(181)
  {
    DivisorsUpTo120();
    assert OnlyKnownDivisors(128) && OnlyKnownDivisors(136) && OnlyKnownDivisors(144) && OnlyKnownDivisors(152);
    assert OnlyKnownDivisors(160) && OnlyKnownDivisors(168) && OnlyKnownDivisors(176);
  }

  lemma {:induction false} KnownDivisor(h: nat, n: nat)
    requires OnlyKnownDivisors(n) && 2 <= h <= n && PERIOD % h == 0
    ensures h == 7 || h == 31 || h == 151
    decreases n
  {
    if h < n {
      KnownDivisor(h, n - 1);
    }
  }

  lemma SmallDivisor(g: nat, p: nat)
    requires g * p == PERIOD && 2 <= p <= 181
    ensures (p == 7 && g == 4681) || (p == 31 && g == 1057) || (p == 151 && g == 217)
  {
    assert PERIOD % p == 0;
    DivisorsUpTo181();
    KnownDivisor(p, 181);
  }

  /** A proper divisor of 32767 divides 4681, 1057 or 217. */
  lemma ProperDivisor(g: nat, p: nat) returns (k: nat)
    requires g * p == PERIOD && 2 <= p
    ensures g * k == 4681 || g * k == 1057 || g * k == 217
  {
    if p <= 181 {
      SmallDivisor(g, p);
      k := 1;
    } else if g >= 182 {
      LargeFactors(g, p);
      assert false;
    } else if g >= 2 {
      SmallDivisor(p, g);
      k := if g == 7 then 31 else if g == 31 then 7 else 7;
    } else {
      k := 217;
    }
  }

  lemma LargeFactors(g: nat, p: nat)
    requires g >= 182 && p >= 182
    ensures g * p >= 182 * 182
  {
    assert g * p >= 182 * p;
  }

  /** x to the power d is not 1 for any d from 1 to 32766. */
  lemma OrderOfX(d: nat)
    requires 0 < d < PERIOD
    ensures Power(d) != ONE
  {
    hide Power;
    if Power(d) == ONE {
      PowerOfPeriod();
      var g, p, q := CommonPeriod(PERIOD, d);
      var k := ProperDivisor(g, p);
      PeriodMultiple(g, k);
      PowerOf4681();
      PowerOf1057();
      PowerOf217();
      assert false;
    }
  }

  /** The powers of x that are 1 are those of the multiples of its order. */
  lemma PowerIsOneExactly(d: nat)
    ensures Power(d) == ONE <==> d % PERIOD == 0
  {
    hide Power;
    var q, r := d / PERIOD, d % PERIOD;
    PowerOfPeriod();
    PeriodMultiple(PERIOD, q);
    assert d == PERIOD * q + r;
    if r == 0 {
      assert Power(d) == ONE;
    } else if Power(d) == ONE {
      PeriodDifference(d, PERIOD * q);
      OrderOfX(r);
      assert false;
    }
  }

  /** A lone bit comes back after exactly the multiples of the order. */
  lemma ReturnsExactly(d: nat)
    ensures Shifts(1, d) == 1 <==> d % PERIOD == 0
  {
    hide Shift;
    LastPower();
    PowerIsOneExactly(d);
    ShiftsAdd(ONE, 15, d);
    ShiftsAdd(ONE, d, 15);
    ShiftsInjective(Power(d), ONE, 15);
  }

  lemma LastPower()
    ensures Shifts(ONE, 15) == 1
  {
    assert Shift(0x8000) == 0x4000 && Shift(0x4000) == 0x2000 && Shift(0x2000) == 0x1000;
    assert Shift(0x1000) == 0x0800 && Shift(0x0800) == 0x0400 && Shift(0x0400) == 0x0200;
    assert Shift(0x0200) == 0x0100 && Shift(0x0100) == 0x0080 && Shift(0x0080) == 0x0040;
    assert Shift(0x0040) == 0x0020 && Shift(0x0020) == 0x0010 && Shift(0x0010) == 0x0008;
    assert Shift(0x0008) == 0x0004 && Shift(0x0004) == 0x0002 && Shift(0x0002) == 0x0001;
    hide Shift;
    assert Shifts(0x8000, 8) == 0x0080 && Shifts(0x0080, 7) == 0x0001;
    ShiftsAdd(0x8000, 8, 7);
  }

  lemma FeedOne(fcs: bv16)
    ensures Feed(fcs, [true]) == Shift(Xor(fcs, 1))
  {
    assert [true][1..] == [];
  }

  /** Two set bits, with all others clear: what is left of them is zero exactly where their
      distance is a multiple of the order. */
  lemma FeedPair(before: seq<bool>, between: seq<bool>, after: seq<bool>)
    requires forall i :: 0 <= i < |before| ==> !before[i]
    requires forall i :: 0 <= i < |between| ==> !between[i]
    requires forall i :: 0 <= i < |after| ==> !after[i]
    ensures Feed(0, before + [true] + between + [true] + after) == 0 <==> (|between| + 1) % PERIOD == 0
  {
    hide Shift, Xor, Feed;
    var d := |between| + 1;
    FeedAppend(0, before + [true] + between + [true], after);
    FeedAppend(0, before + [true] + between, [true]);
    FeedAppend(0, before + [true], between);
    FeedAppend(0, before, [true]);
    FeedZeros(before);
    ShiftsZero(0, |before|);
    FeedOne(0);
    XorUnit(1);
    FeedZeros(between);
    assert Shifts(Shift(1), |between|) == Shifts(1, d);
    ReturnsExactly(d);
    FeedOne(Shifts(1, d));
    XorZero(Shifts(1, d), 1);
    ShiftZero(Xor(Shifts(1, d), 1));
    FeedZeros(after);
    ShiftsZero(Shift(Xor(Shifts(1, d), 1)), |after|);
  }

  /** An error that flips just two bits goes undetected exactly where they are a multiple
      of 32767 places apart. */
  lemma TwoBitErrorsExactly(sent: bytes, received: bytes, i: nat, j: nat)
    requires |sent| == |received| && Accepts(sent) && i < j < 8 * |sent|
    requires forall k :: 0 <= k < 8 * |sent|
               ==> (Difference(Bits(sent), Bits(received))[k] <==> k == i || k == j)
    ensures Accepts(received) <==> (j - i) % PERIOD == 0
  {
    hide Feed, Bits, Accepts;
    var e := Difference(Bits(sent), Bits(received));
    UndetectedExactly(sent, received);
    assert e == e[..i] + [true] + e[i + 1..j] + [true] + e[j + 1..];
    FeedPair(e[..i], e[i + 1..j], e[j + 1..]);
  }

  /** So none with the two bits fewer than 32767 places apart is accepted. */
  lemma TwoBitErrorsAreDetected(sent: bytes, received: bytes, i: nat, j: nat)
    requires |sent| == |received| && Accepts(sent)
    requires i < j < 8 * |sent| && j - i < PERIOD
    requires forall k :: 0 <= k < 8 * |sent|
               ==> (Difference(Bits(sent), Bits(received))[k] <==> k == i || k == j)
    ensures !Accepts(received)
  {
    hide *;
    TwoBitErrorsExactly(sent, received, i, j);
  }
}
