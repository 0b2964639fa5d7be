/** The bit loop of the FCS is long division by x^16 + x^12 + x^5 + 1 over GF(2), with
    the register reflected. A polynomial is the set of its exponents, so adding is
    symmetric difference. */
module FcsPolynomial {
  import opened Bytes
  import opened Fcs
  import opened FcsLaws
  import opened FcsErrors

  type Poly = set<nat>

  function Sum(a: Poly, b: Poly): (r: Poly)
    ensures forall e: nat :: e in r <==> (e in a) != (e in b)
  {
    (a - b) + (b - a)
  }

  /** `a` times x^k. */
  function Times(a: Poly, k: nat): (r: Poly)
    ensures forall e: nat {:trigger e in r} :: e in r <==> e >= k && e - k in a
  {
    var r := set e: nat | e in a :: e + k;
    assert forall d: nat {:trigger d in a} :: d in a ==> d + k in r;
    r
  }

  /** `q` times the generator x^16 + x^12 + x^5 + 1. */
  function TimesGenerator(q: Poly): Poly {
    Sum(Sum(Times(q, 16), Times(q, 12)), Sum(Times(q, 5), q))
  }

  ghost predicate Divisible(p: Poly) {
    exists q :: p == TimesGenerator(q)
  }

  ghost predicate Below(p: Poly, n: nat) {
    forall e :: e in p ==> e < n
  }

  function Term(c: bool, e: nat): Poly { if c then {e} else {} }

  /** The polynomial of the `n` low bits of `v`, the lowest being the coefficient of
      x^(n-1): the register of the FCS is reflected. */
  function PolyOfWord(v: bv16, n: nat): Poly
    decreases n
  {
    if n == 0 then {} else Sum(Term(Low(v), n - 1), PolyOfWord(Half(v), n - 1))
  }

  /** The polynomial of a bit string, the first bit having the highest exponent. */
  function PolyOf(bits: seq<bool>): Poly
    decreases |bits|
  {
    if bits == [] then {} else Sum(Term(bits[0], |bits| - 1), PolyOf(bits[1..]))
  }

  // --------------------------------------------------------------- polynomial algebra

  lemma SumMiddle(a: Poly, b: Poly, c: Poly, d: Poly)
    ensures Sum(Sum(a, b), Sum(c, d)) == Sum(Sum(a, c), Sum(b, d))
  {
    hide Sum;
  }

  lemma SumRotate(a: Poly, b: Poly, c: Poly)
    ensures Sum(Sum(a, b), c) == Sum(a, Sum(b, c)) && Sum(a, b) == Sum(b, a)
    ensures Sum(a, a) == {} && Sum(a, {}) == a && Sum({}, a) == a
  {
    hide Sum;
  }

  lemma TimesSum(a: Poly, b: Poly, k: nat)
    ensures Times(Sum(a, b), k) == Sum(Times(a, k), Times(b, k))
  {
    hide Sum, Times;
  }

  lemma TimesTimes(a: Poly, j: nat, k: nat)
    ensures Times(Times(a, j), k) == Times(a, j + k) && Times(a, 0) == a
  {
    hide Times;
  }

  lemma GeneratorSum(p: Poly, q: Poly)
    ensures TimesGenerator(Sum(p, q)) == Sum(TimesGenerator(p), TimesGenerator(q))
  {
    hide Sum, Times;
    TimesSum(p, q, 16);
    TimesSum(p, q, 12);
    TimesSum(p, q, 5);
    SumMiddle(Times(p, 16), Times(q, 16), Times(p, 12), Times(q, 12));
    SumMiddle(Times(p, 5), Times(q, 5), p, q);
    SumMiddle(Sum(Times(p, 16), Times(p, 12)), Sum(Times(q, 16), Times(q, 12)),
              Sum(Times(p, 5), p), Sum(Times(q, 5), q));
  }

  lemma GeneratorTimes(q: Poly, k: nat)
    ensures TimesGenerator(Times(q, k)) == Times(TimesGenerator(q), k)
  {
    hide Sum, Times;
    TimesTimes(q, 16, k);
    TimesTimes(q, k, 16);
    TimesTimes(q, 12, k);
    TimesTimes(q, k, 12);
    TimesTimes(q, 5, k);
    TimesTimes(q, k, 5);
    TimesSum(Times(q, 16), Times(q, 12), k);
    TimesSum(Times(q, 5), q, k);
    TimesSum(Sum(Times(q, 16), Times(q, 12)), Sum(Times(q, 5), q), k);
  }

  lemma {:induction false} Greatest(p: Poly) returns (m: nat)
    requires p != {}
    ensures m in p && forall e :: e in p ==> e <= m
    decreases |p|
  {
    m :| m in p;
    var rest := p - {m};
    if rest != {} {
      var n := Greatest(rest);
      assert forall e :: e in p ==> e == m || e in rest;
      m := if n > m then n else m;
    } else {
      assert p == {m};
    }
  }

  lemma {:induction false} Least(p: Poly) returns (m: nat)
    requires p != {}
    ensures m in p && forall e :: e in p ==> m <= e
    decreases |p|
  {
    m :| m in p;
    var rest := p - {m};
    if rest != {} {
      var n := Least(rest);
      assert forall e :: e in p ==> e == m || e in rest;
      m := if n < m then n else m;
    } else {
      assert p == {m};
    }
  }

  lemma GreatestOfMultiple(q: Poly, m: nat)
    requires m in q && forall e :: e in q ==> e <= m
    ensures m + 16 in TimesGenerator(q)
  {
    hide Sum, Times;
    assert m + 16 in Times(q, 16) && m + 16 !in Times(q, 12);
    assert m + 16 !in Times(q, 5) && m + 16 !in q;
  }

  /** No multiple of the generator but zero has degree below 16. */
  lemma MultipleIsLong(q: Poly)
    requires Below(TimesGenerator(q), 16)
    ensures q == {}
  {
    hide Sum, Times;
    if q != {} {
      var m := Greatest(q);
      GreatestOfMultiple(q, m);
    }
  }

  /** Division by the generator has one remainder. */
  lemma RemainderIsUnique(p: Poly, r: Poly, q: Poly, s: Poly)
    requires Below(r, 16) && Below(s, 16)
    requires Sum(TimesGenerator(p), r) == Sum(TimesGenerator(q), s)
    ensures r == s
  {
    hide Times;
    var pg, qg := TimesGenerator(p), TimesGenerator(q);
    assert Sum(pg, qg) == Sum(r, s) by {
      forall e: nat
        ensures e in Sum(pg, qg) <==> e in Sum(r, s)
      {
        assert e in Sum(pg, r) <==> e in Sum(qg, s);
      }
    }
    GeneratorSum(p, q);
    MultipleIsLong(Sum(p, q));
    assert TimesGenerator({}) == {};
    assert Sum(r, s) == {};
  }

  // ---------------------------------------------------------------- the register divides

  lemma {:induction false} PolyOfWordXor(a: bv16, b: bv16, n: nat)
    ensures PolyOfWord(Xor(a, b), n) == Sum(PolyOfWord(a, n), PolyOfWord(b, n))
    decreases n
  {
    hide Xor, Half, Low, Sum;
    if n != 0 {
      LowXor(a, b);
      HalfXor(a, b);
      PolyOfWordXor(Half(a), Half(b), n - 1);
      SumMiddle(Term(Low(a), n - 1), PolyOfWord(Half(a), n - 1),
                Term(Low(b), n - 1), PolyOfWord(Half(b), n - 1));
      assert Term(Low(a) != Low(b), n - 1) == Sum(Term(Low(a), n - 1), Term(Low(b), n - 1));
    } else {
      assert Sum({}, {}) == {};
    }
  }

  /** One more place is one more factor of x. */
  lemma {:induction false} PolyOfWordWidened(v: bv16, n: nat)
    requires Halves(v, n) == 0
    ensures PolyOfWord(v, n + 1) == Times(PolyOfWord(v, n), 1)
    decreases n
  {
    ZeroIsClear();
    hide Half, Low, Sum, Times, Term;
    if n == 0 {
      PolyOfZeroWord();
      assert Times({}, 1) == {};
    } else {
      PolyOfWordWidened(Half(v), n - 1);
      TimesSum(Term(Low(v), n - 1), PolyOfWord(Half(v), n - 1), 1);
      TimesTerm(Low(v), n - 1, 1);
    }
  }

  lemma PolyOfZeroWord()
    ensures PolyOfWord(0, 1) == {}
  {
    ZeroIsClear();
    hide Half, Low, Sum;
    assert PolyOfWord(0, 0) == {};
  }

  lemma TimesTerm(c: bool, e: nat, k: nat)
    ensures Times(Term(c, e), k) == Term(c, e + k)
  {
    hide Times;
  }

  lemma {:induction false} PolyOfWordBelow(v: bv16, n: nat)
    ensures Below(PolyOfWord(v, n), n)
    decreases n
  {
    hide Half, Low, Sum;
    if n != 0 {
      PolyOfWordBelow(Half(v), n - 1);
    }
  }

  lemma {:induction false} PolyOfWordZero(v: bv16, n: nat)
    requires n <= 16 && Bounded(v, n)
    ensures PolyOfWord(v, n) == {} <==> v == 0
    decreases n
  {
    ZeroIsClear();
    HalfZero(v);
    BoundedExtremes(v, 0);
    hide Half, Low, Sum, Bounded;
    if n != 0 {
      HalfBounded(v, n - 1);
      PolyOfWordZero(Half(v), n - 1);
      PolyOfWordBelow(Half(v), n - 1);
      assert Low(v) ==> n - 1 in PolyOfWord(v, n);
    }
  }

  lemma PolyOfPoly()
    ensures Sum(PolyOfWord(FCS_POLY, 16), {16}) == TimesGenerator({0})
  {
    DigitsOfPoly();
    hide Half, Low, Sum, Times;
    assert PolyOfWord(0x0001, 1) == {0};
    assert PolyOfWord(0x0004, 3) == {0};
    assert PolyOfWord(0x0010, 5) == {0};
    assert PolyOfWord(0x0021, 6) == {0, 5};
    assert PolyOfWord(0x0084, 8) == {0, 5};
    assert PolyOfWord(0x0210, 10) == {0, 5};
    assert PolyOfWord(0x0840, 12) == {0, 5};
    assert PolyOfWord(0x2102, 14) == {0, 5, 12};
    assert PolyOfWord(0x8408, 16) == {0, 5, 12};
  }

  lemma PolyOfWordCut(v: bv16)
    ensures Times(PolyOfWord(v, 16), 1)
         == Sum(Times(PolyOfWord(Half(v), 15), 1), Term(Low(v), 16))
  {
    hide Half, Low, Sum, Times;
    TimesSum(Term(Low(v), 15), PolyOfWord(Half(v), 15), 1);
    assert Times(Term(Low(v), 15), 1) == Term(Low(v), 16);
    SumRotate(Term(Low(v), 16), Times(PolyOfWord(Half(v), 15), 1), {});
  }

  /** One turn of the loop multiplies by x and subtracts the generator when x^16 appears. */
  lemma PolyOfShift(v: bv16)
    ensures Times(PolyOfWord(v, 16), 1)
              == Sum(PolyOfWord(Shift(v), 16), TimesGenerator(Term(Low(v), 0)))
  {
    BoundedExtremes(v, 0);
    PolyOfPoly();
    hide Xor, Half, Low, Sum, Times, Bounded, PolyOfWord, TimesGenerator;
    var h := Half(v);
    HalfBounded(v, 15);
    HalvesOfBounded(h, 15);
    PolyOfWordWidened(h, 15);
    PolyOfWordCut(v);
    var wide := PolyOfWord(h, 16);
    if Low(v) {
      var g := PolyOfWord(FCS_POLY, 16);
      PolyOfWordXor(h, FCS_POLY, 16);
      SumRotate(wide, g, Sum(g, {16}));
      SumRotate(g, g, {16});
      SumRotate({16}, {16}, {});
    } else {
      GeneratorOfZero();
    }
  }

  lemma GeneratorOfZero()
    ensures TimesGenerator({}) == {}
  {
    hide Times;
  }

  /** What the register divides by: after `bits`, it holds the remainder of
      (start * x^n + bits * x^16) by the generator; `Quotient` is the quotient. */
  function Quotient(fcs: bv16, bits: seq<bool>): Poly
    decreases |bits|
  {
    if bits == [] then {}
    else
      var v := Xor(fcs, Bit(bits[0]));
      Sum(Term(Low(v), |bits| - 1), Quotient(Shift(v), bits[1..]))
  }

  lemma PolyOfBit(b: bool)
    ensures PolyOfWord(Bit(b), 16) == Term(b, 15)
  {
    assert Low(Bit(b)) == b && Half(Bit(b)) == 0;
    hide Half, Low, Bit, Sum;
    ZeroPoly(15);
  }

  lemma {:induction false} ZeroPoly(n: nat)
    ensures PolyOfWord(0, n) == {}
  {
    ZeroIsClear();
    hide Half, Low, Sum;
    if n != 0 {
      ZeroPoly(n - 1);
    }
  }

  lemma {:induction false} RegisterDivides(fcs: bv16, bits: seq<bool>)
    ensures Sum(Times(PolyOfWord(fcs, 16), |bits|), Times(PolyOf(bits), 16))
              == Sum(TimesGenerator(Quotient(fcs, bits)), PolyOfWord(Feed(fcs, bits), 16))
    decreases |bits|
  {
    hide Shift, Xor, Half, Low, Bit, Sum, Times, TimesGenerator, PolyOfWord, Term;
    var n := |bits|;
    var start := PolyOfWord(fcs, 16);
    if n == 0 {
      TimesTimes(start, 0, 0);
      GeneratorOfZero();
      assert Times({}, 16) == {};
      SumRotate(start, {}, {});
    } else {
      var v, b := Xor(fcs, Bit(bits[0])), Term(bits[0], n - 1);
      var rest, low := PolyOf(bits[1..]), Term(Low(v), n - 1);
      var next := PolyOfWord(Shift(v), 16);
      // The new bit joins the register at x^15, which is x^16 times its place.
      PolyOfWordXor(fcs, Bit(bits[0]), 16);
      PolyOfBit(bits[0]);
      TimesSum(start, Term(bits[0], 15), n);
      TimesTerm(bits[0], 15, n);
      TimesTerm(bits[0], n - 1, 16);
      TimesSum(b, rest, 16);
      SumRotate(Times(start, n), Times(b, 16), Times(rest, 16));
      // One turn of the loop.
      PolyOfShift(v);
      TimesTimes(PolyOfWord(v, 16), 1, n - 1);
      TimesSum(next, TimesGenerator(Term(Low(v), 0)), n - 1);
      GeneratorTimes(Term(Low(v), 0), n - 1);
      TimesTerm(Low(v), 0, n - 1);
      SumRotate(Times(next, n - 1), TimesGenerator(low), Times(rest, 16));
      SumRotate(TimesGenerator(low), Times(rest, 16), {});
      SumRotate(Times(next, n - 1), Times(rest, 16), TimesGenerator(low));
      // The remaining bits.
      RegisterDivides(Shift(v), bits[1..]);
      var q := Quotient(Shift(v), bits[1..]);
      var last := PolyOfWord(Feed(Shift(v), bits[1..]), 16);
      GeneratorSum(low, q);
      SumRotate(TimesGenerator(q), last, TimesGenerator(low));
      SumRotate(last, TimesGenerator(low), {});
      SumRotate(TimesGenerator(low), TimesGenerator(q), last);
      SumRotate(TimesGenerator(q), TimesGenerator(low), last);
    }
  }

  /** The register started at zero ends at zero exactly when the generator divides. */
  lemma ZeroRegisterExactly(bits: seq<bool>)
    ensures Feed(0, bits) == 0 <==> Divisible(Times(PolyOf(bits), 16))
  {
    BoundedExtremes(Feed(0, bits), 0);
    hide Sum, Times, TimesGenerator, PolyOfWord, PolyOf, Quotient, Bounded, Feed;
    var product, last := Times(PolyOf(bits), 16), PolyOfWord(Feed(0, bits), 16);
    RegisterDivides(0, bits);
    ZeroPoly(16);
    assert Times({}, |bits|) == {};
    SumRotate(product, {}, {});
    var q := Quotient(0, bits);
    SumRotate(TimesGenerator(q), {}, {});
    PolyOfWordZero(Feed(0, bits), 16);
    PolyOfWordBelow(Feed(0, bits), 16);
    if Divisible(product) {
      var p :| product == TimesGenerator(p);
      SumRotate(TimesGenerator(p), {}, {});
      RemainderIsUnique(p, {}, q, last);
    }
  }

  lemma LeastOfMultiple(q: Poly, m: nat)
    requires m in q && forall e :: e in q ==> m <= e
    ensures m in TimesGenerator(q)
  {
    hide Sum, Times;
    assert m !in Times(q, 16) && m !in Times(q, 12) && m !in Times(q, 5);
  }

  /** The generator has a constant term, so factors of x do not help it divide. */
  lemma DivisibleTimes(p: Poly, k: nat)
    ensures Divisible(Times(p, k)) <==> Divisible(p)
  {
    hide Times, TimesGenerator;
    if Divisible(p) {
      var q :| p == TimesGenerator(q);
      GeneratorTimes(q, k);
    }
    if Divisible(Times(p, k)) {
      var q :| Times(p, k) == TimesGenerator(q);
      if q != {} {
        var m := Least(q);
        LeastOfMultiple(q, m);
      }
      var r: Poly := set e | e in q :: if e >= k then e - k else 0;
      assert q == Times(r, k) by {
        forall e: nat
          ensures e in q <==> e in Times(r, k)
        {
          if e in q {
            assert e - k in r;
          }
        }
      }
      GeneratorTimes(r, k);
      TimesInjective(p, TimesGenerator(r), k);
    }
  }

  lemma TimesInjective(a: Poly, b: Poly, k: nat)
    requires Times(a, k) == Times(b, k)
    ensures a == b
  {
    hide Times;
    forall e: nat
      ensures e in a <==> e in b
    {
      assert e + k in Times(a, k) <==> e in a;
      assert e + k in Times(b, k) <==> e in b;
    }
  }

  /** Of contents of one length, if one is accepted then another is exactly when the
      generator divides the polynomial of their difference. */
  lemma UndetectedIsDivisible(sent: bytes, received: bytes)
    requires |sent| == |received| && Accepts(sent)
    ensures Accepts(received) <==> Divisible(PolyOf(Difference(Bits(sent), Bits(received))))
  {
    hide Accepts, Feed, Bits, PolyOf, Times, TimesGenerator;
    var d := Difference(Bits(sent), Bits(received));
    UndetectedExactly(sent, received);
    ZeroRegisterExactly(d);
    DivisibleTimes(PolyOf(d), 16);
  }
}
