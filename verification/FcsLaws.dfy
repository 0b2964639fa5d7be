/** The FCS register is linear and invertible; from that, the residue form of the check
    (Appendix C.2 of RFC 1662) and the errors it is certain to detect. */
module FcsLaws {
  import opened Bytes
  import opened Fcs

  function Bit(b: bool): bv16 { if b then 1 else 0 }

  function Twice(v: bv16): bv16 { v << 1 }

  // ------------------------------------------------------------ laws of the operations

  lemma XorAssoc(a: bv16, b: bv16, c: bv16)
    ensures Xor(Xor(a, b), c) == Xor(a, Xor(b, c))
  {
  }

  lemma XorComm(a: bv16, b: bv16)
    ensures Xor(a, b) == Xor(b, a)
  {
  }

  lemma XorUnit(a: bv16)
    ensures Xor(a, a) == 0 && Xor(a, 0) == a && Xor(0, a) == a
  {
  }

  lemma XorMiddle(a: bv16, b: bv16, c: bv16, d: bv16)
    ensures Xor(Xor(a, b), Xor(c, d)) == Xor(Xor(a, c), Xor(b, d))
  {
    hide Xor;
    XorAssoc(a, b, Xor(c, d));
    XorAssoc(b, c, d);
    XorComm(b, c);
    XorAssoc(c, b, d);
    XorAssoc(a, c, Xor(b, d));
  }

  lemma XorZero(a: bv16, b: bv16)
    ensures Xor(a, b) == 0 <==> a == b
  {
    hide Xor;
    XorUnit(a);
    XorUnit(b);
    XorAssoc(a, b, b);
  }

  lemma HalfXor(a: bv16, b: bv16)
    ensures Half(Xor(a, b)) == Xor(Half(a), Half(b))
  {
  }

  lemma LowXor(a: bv16, b: bv16)
    ensures Low(Xor(a, b)) == (Low(a) != Low(b))
  {
  }

  lemma ShiftLinear(a: bv16, b: bv16)
    ensures Shift(Xor(a, b)) == Xor(Shift(a), Shift(b))
  {
    hide Xor, Half, Low;
    HalfXor(a, b);
    LowXor(a, b);
    var h, k, p := Half(a), Half(b), FCS_POLY;
    if Low(a) {
      if Low(b) {
        XorMiddle(h, p, k, p);
        XorUnit(p);
        XorUnit(Xor(h, k));
      } else {
        XorAssoc(h, p, k);
        XorComm(p, k);
        XorAssoc(h, k, p);
      }
    } else {
      XorAssoc(h, k, p);
    }
  }

  lemma HalfZero(v: bv16)
    ensures Half(v) == FCS_POLY ==> false
    ensures Half(v) == 0 && !Low(v) ==> v == 0
  {
  }

  lemma ShiftZero(v: bv16)
    ensures Shift(v) == 0 <==> v == 0
  {
    hide Xor;
    HalfZero(v);
    XorZero(Half(v), FCS_POLY);
  }

  lemma {:induction false} ShiftsLinear(a: bv16, b: bv16, n: nat)
    ensures Shifts(Xor(a, b), n) == Xor(Shifts(a, n), Shifts(b, n))
    decreases n
  {
    hide Shift, Xor;
    if n != 0 {
      ShiftLinear(a, b);
      ShiftsLinear(Shift(a), Shift(b), n - 1);
    }
  }

  lemma {:induction false} ShiftsZero(v: bv16, n: nat)
    ensures Shifts(v, n) == 0 <==> v == 0
    decreases n
  {
    hide Shift;
    if n != 0 {
      ShiftZero(v);
      ShiftsZero(Shift(v), n - 1);
    }
  }

  lemma ShiftsInjective(a: bv16, b: bv16, n: nat)
    ensures Shifts(a, n) == Shifts(b, n) <==> a == b
  {
    hide Xor;
    ShiftsLinear(a, b, n);
    ShiftsZero(Xor(a, b), n);
    XorZero(a, b);
    XorZero(Shifts(a, n), Shifts(b, n));
  }

  lemma {:induction false} ShiftsAdd(v: bv16, m: nat, n: nat)
    ensures Shifts(Shifts(v, m), n) == Shifts(v, m + n)
    decreases m
  {
    hide Shift;
    if m != 0 {
      ShiftsAdd(Shift(v), m - 1, n);
    }
  }

  // ------------------------------------------------------------------ the residue

  lemma {:induction false} RegisterAppend(fcs: bv16, x: bytes, y: bytes)
    ensures Register(fcs, x + y) == Register(Register(fcs, x), y)
    decreases |x|
  {
    hide Update;
    if x == [] {
      assert x + y == y;
    } else {
      assert (x + y)[1..] == x[1..] + y;
      RegisterAppend(Update(fcs, x[0]), x[1..], y);
    }
  }

  function Raise(hi: byte): bv16 { (hi as bv16) << 8 }

  lemma RaiseIsClear(hi: byte)
    ensures !Low(Raise(hi)) && !Low(Half(Raise(hi)))
    ensures !Low(Half(Half(Raise(hi)))) && !Low(Half(Half(Half(Raise(hi)))))
  {
  }

  lemma RaiseIsClearAbove(hi: byte, v: bv16)
    requires v == Half(Half(Half(Half(Raise(hi)))))
    ensures !Low(v) && !Low(Half(v)) && !Low(Half(Half(v))) && !Low(Half(Half(Half(v))))
    ensures Half(Half(Half(Half(v)))) == Wide(hi)
  {
  }

  lemma ShiftsRaise(hi: byte)
    ensures Shifts(Raise(hi), 8) == Wide(hi)
  {
    hide Low, Half, Raise, Wide;
    RaiseIsClear(hi);
    var v := Half(Half(Half(Half(Raise(hi)))));
    RaiseIsClearAbove(hi, v);
    assert Shifts(Raise(hi), 8) == Shifts(v, 4);
  }

  lemma SplitWord(lo: byte, hi: byte)
    ensures FromLe16(lo, hi) == Xor(Wide(lo), Raise(hi))
  {
  }

  /** Two FCS bytes act on the register like one XOR of the FCS and 16 shifts. */
  lemma RegisterOfFcs(fcs: bv16, lo: byte, hi: byte)
    ensures Register(fcs, [lo, hi]) == Shifts(Xor(fcs, FromLe16(lo, hi)), 16)
  {
    hide Shift, Xor, Wide, FromLe16, Raise;
    var first, last := Xor(fcs, Wide(lo)), Raise(hi);
    assert [lo, hi] == [lo] + [hi] && [lo][1..] == [] && [hi][1..] == [];
    RegisterAppend(fcs, [lo], [hi]);
    ShiftsLinear(first, last, 8);
    ShiftsRaise(hi);
    ShiftsAdd(Xor(first, last), 8, 8);
    SplitWord(lo, hi);
    XorAssoc(fcs, Wide(lo), Raise(hi));
  }

  lemma ShiftsOfOnes()
    ensures Shifts(0xffff, 16) == GOOD_FCS
  {
    assert Shift(0xffff) == 0xfbf7 && Shift(0xfbf7) == 0xf9f3 && Shift(0xf9f3) == 0xf8f1;
    assert Shift(0xf8f1) == 0xf870 && Shift(0xf870) == 0x7c38 && Shift(0x7c38) == 0x3e1c;
    assert Shift(0x3e1c) == 0x1f0e && Shift(0x1f0e) == 0x0f87 && Shift(0x0f87) == 0x83cb;
    assert Shift(0x83cb) == 0xc5ed && Shift(0xc5ed) == 0xe6fe && Shift(0xe6fe) == 0x737f;
    assert Shift(0x737f) == 0xbdb7 && Shift(0xbdb7) == 0xdad3 && Shift(0xdad3) == 0xe961;
    assert Shift(0xe961) == 0xf0b8;
    hide Shift;
    assert Shifts(0xffff, 8) == 0x0f87;
    assert Shifts(0x0f87, 8) == GOOD_FCS;
    ShiftsAdd(0xffff, 8, 8);
  }

  lemma ComplementIsXor(a: bv16)
    ensures !a == Xor(a, 0xffff)
  {
  }

  lemma Complement(a: bv16, b: bv16)
    ensures Xor(a, b) == 0xffff <==> !a == b
  {
    ComplementIsXor(a);
    hide Xor;
    XorUnit(a);
    XorUnit(b);
    XorUnit(0xffff);
    XorAssoc(a, a, b);
    XorAssoc(a, a, 0xffff);
  }

  /** The check that `decode` makes is the residue check of Appendix C.2 of RFC 1662. */
  lemma AcceptsIsResidue(content: bytes)
    requires |content| >= 2
    ensures Accepts(content) <==> Register(INITIAL_FCS, content) == GOOD_FCS
  {
    hide Xor, FromLe16, Register, Shifts;
    var n := |content| - 2;
    var payload, lo, hi := content[..n], content[n], content[n + 1];
    assert content == payload + [lo, hi];
    var fcs := Register(INITIAL_FCS, payload);
    RegisterAppend(INITIAL_FCS, payload, [lo, hi]);
    RegisterOfFcs(fcs, lo, hi);
    ShiftsOfOnes();
    ShiftsInjective(Xor(fcs, FromLe16(lo, hi)), 0xffff, 16);
    Complement(fcs, FromLe16(lo, hi));
  }
}
