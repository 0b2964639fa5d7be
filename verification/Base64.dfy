/** Base64 (section 4 of RFC 4648), as src/base64.rs encodes and decodes it. Text is a
    sequence of characters; one outside ASCII is refused here as its bytes are there. */
module Base64 {
  import opened Bytes
  import opened Wrappers

  /** The alphabet in order: A to Z, a to z, 0 to 9, plus and slash. */
  function AlphabetAt(n: nat): char
    requires n < 64
  {
    if n < 26 then ('A' as int + n) as char
    else if n < 52 then ('a' as int + (n - 26)) as char
    else if n < 62 then ('0' as int + (n - 52)) as char
    else if n == 62 then '+'
    else '/'
  }

  // --------------------------------------------------------------------- one character

  function DecodeValue(c: char): (r: Option<nat>)
    ensures r.Some? ==> r.value < 64
  {
    if 'A' <= c <= 'Z' then Some(c as int - 'A' as int)
    else if 'a' <= c <= 'z' then Some(c as int - 'a' as int + 26)
    else if '0' <= c <= '9' then Some(c as int - '0' as int + 52)
    else if c == '+' then Some(62)
    else if c == '/' then Some(63)
    else None
  }

  function DecodeChar(c: char): Option<byte> {
    match DecodeValue(c)
    case None => None
    case Some(n) => Some(ByteOf(n))
  }

  predicate Sextet(v: byte) { Fits(v, 6) }

  function Symbol(v: byte): char
    requires Sextet(v)
  {
    SextetValue(v);
    AlphabetAt(IntOf(v))
  }

  lemma SextetValue(v: byte)
    requires Sextet(v)
    ensures IntOf(v) < 64 && Read(v, 6) == IntOf(v)
  {
    HighBitsAreClear(v, 6);
    HighBitsAreClear(v, 7);
    SpellRead(v, 6);
  }

  /** Reading a clear bit adds nothing. */
  lemma {:induction false} HighBitsAreClear(v: byte, k: nat)
    requires k < 8 && Fits(v, k)
    ensures Fits(v, k + 1) && Read(v, k + 1) == Read(v, k)
    decreases k
  {
    hide Join, OddByte;
    FitsMore(v, k);
    if k == 0 {
      NothingOdd();
    } else {
      FitsHalf(v, k - 1);
      HighBitsAreClear(HalfByte(v), k - 1);
    }
  }

  lemma FitsMore(v: byte, k: nat)
    requires k < 8 && Fits(v, k)
    ensures Fits(v, k + 1)
  {
  }

  lemma NothingOdd()
    ensures !OddByte(0)
  {
  }

  lemma AlphabetIs(n: nat)
    requires n < 64
    ensures DecodeValue(AlphabetAt(n)) == Some(n)
  {
  }

  lemma ValueIs(c: char)
    requires DecodeValue(c).Some?
    ensures AlphabetAt(DecodeValue(c).value) == c
  {
  }

  lemma SpellsSextet(n: nat)
    requires n < 64
    ensures Sextet(ByteOf(n)) && IntOf(ByteOf(n)) == n
  {
    hide Join, OddByte, HalfByte, Fits, Spell;
    IntRoundTrip(n);
    SpellFits(n, 8, 6);
  }

  /** A number below 2^j spells a byte whose other bits are clear. */
  lemma {:induction false} SpellFits(n: nat, k: nat, j: nat)
    requires j <= k <= 8 && n < Pow2(j)
    ensures Fits(Spell(n, k), j)
    decreases k
  {
    hide Join, OddByte, HalfByte, Fits;
    if k == 0 {
      FitsNone(0);
    } else if j == 0 {
      SpellFits(0, k - 1, 0);
      FitsNone(Spell(0, k - 1));
      JoinsNothing();
      FitsNone(0);
    } else {
      SpellFits(n / 2, k - 1, j - 1);
      FitsJoin(Spell(n / 2, k - 1), j - 1, n % 2 == 1);
    }
  }

  lemma JoinsNothing()
    ensures Join(0, false) == 0
  {
  }

  /** Symbols and sextets are in one-to-one correspondence. */
  lemma SymbolExactly(c: char, v: byte)
    ensures DecodeChar(c) == Some(v) <==> Sextet(v) && Symbol(v) == c
  {
    hide Fits, Read, Spell;
    if Sextet(v) {
      SextetValue(v);
      AlphabetIs(IntOf(v));
      ByteRoundTrip(v);
    }
    if DecodeValue(c).Some? {
      var n := DecodeValue(c).value;
      SpellsSextet(n);
      ValueIs(c);
      assert v == ByteOf(n) ==> Sextet(v) && Symbol(v) == c;
    }
  }

  lemma PadIsNoSymbol(v: byte)
    requires Sextet(v)
    ensures Symbol(v) != '='
  {
    hide Fits, Read, Spell;
    SextetValue(v);
    AlphabetIs(IntOf(v));
  }

  // ------------------------------------------------------------------------- the bits

  function Word(b0: byte, b1: byte, b2: byte): bv32 {
    ((b0 as bv32) << 16) | ((b1 as bv32) << 8) | (b2 as bv32)
  }

  // The four sextets of a word, first to last.

  function Field0(word: bv32): (v: byte)
    ensures Sextet(v)
  {
    ((word >> 18) & 0x3f) as byte
  }

  function Field1(word: bv32): (v: byte)
    ensures Sextet(v)
  {
    ((word >> 12) & 0x3f) as byte
  }

  function Field2(word: bv32): (v: byte)
    ensures Sextet(v)
  {
    ((word >> 6) & 0x3f) as byte
  }

  function Field3(word: bv32): (v: byte)
    ensures Sextet(v)
  {
    (word & 0x3f) as byte
  }

  function First(a: byte, b: byte): byte { (a << 2) | (b >> 4) }

  function Second(b: byte, c: byte): byte { (b << 4) | (c >> 2) }

  function Third(c: byte, d: byte): byte { (c << 6) | d }

  // Three bytes into four sextets and back.

  lemma FirstByte(b0: byte, b1: byte, b2: byte)
    ensures First(Field0(Word(b0, b1, b2)), Field1(Word(b0, b1, b2))) == b0
  {
  }

  lemma SecondByte(b0: byte, b1: byte, b2: byte)
    ensures Second(Field1(Word(b0, b1, b2)), Field2(Word(b0, b1, b2))) == b1
  {
  }

  lemma ThirdByte(b0: byte, b1: byte, b2: byte)
    ensures Third(Field2(Word(b0, b1, b2)), Field3(Word(b0, b1, b2))) == b2
  {
  }

  lemma BitsRoundTrip(b0: byte, b1: byte, b2: byte)
    ensures var w := Word(b0, b1, b2);
            && First(Field0(w), Field1(w)) == b0
            && Second(Field1(w), Field2(w)) == b1
            && Third(Field2(w), Field3(w)) == b2
  {
    hide *;
    FirstByte(b0, b1, b2);
    SecondByte(b0, b1, b2);
    ThirdByte(b0, b1, b2);
  }

  // Four sextets into three bytes and back; where fewer bytes are left, without the bits of
  // the last sextet that carry nothing.

  lemma FirstSextet(a: byte, b: byte, b1: byte, b2: byte)
    requires Sextet(a) && Sextet(b)
    ensures Field0(Word(First(a, b), b1, b2)) == a
  {
  }

  lemma SecondSextet(a: byte, b: byte, c: byte, b2: byte)
    requires Sextet(a) && Sextet(b) && Sextet(c)
    ensures Field1(Word(First(a, b), Second(b, c), b2)) == b
    ensures Field1(Word(First(a, b), 0, 0)) == b & 0x30
  {
  }

  lemma ThirdSextet(b0: byte, b: byte, c: byte, d: byte)
    requires Sextet(b) && Sextet(c) && Sextet(d)
    ensures Field2(Word(b0, Second(b, c), Third(c, d))) == c
    ensures Field2(Word(b0, Second(b, c), 0)) == c & 0x3c
  {
  }

  lemma FourthSextet(b0: byte, b1: byte, c: byte, d: byte)
    requires Sextet(c) && Sextet(d)
    ensures Field3(Word(b0, b1, Third(c, d))) == d
  {
  }

  lemma SextetsRoundTrip(a: byte, b: byte, c: byte, d: byte)
    requires Sextet(a) && Sextet(b) && Sextet(c) && Sextet(d)
    ensures var w := Word(First(a, b), Second(b, c), Third(c, d));
            Field0(w) == a && Field1(w) == b && Field2(w) == c && Field3(w) == d
  {
    hide *;
    FirstSextet(a, b, Second(b, c), Third(c, d));
    SecondSextet(a, b, c, Third(c, d));
    ThirdSextet(First(a, b), b, c, d);
    FourthSextet(First(a, b), Second(b, c), c, d);
  }

  lemma PaddedRoundTrip(a: byte, b: byte, c: byte)
    requires Sextet(a) && Sextet(b) && Sextet(c)
    ensures var w := Word(First(a, b), 0, 0);
            Field0(w) == a && Field1(w) == b & 0x30
    ensures var w := Word(First(a, b), Second(b, c), 0);
            Field0(w) == a && Field1(w) == b && Field2(w) == c & 0x3c
    ensures Sextet(b & 0x30) && Sextet(c & 0x3c)
  {
    MaskedFits(b, 0x30);
    MaskedFits(c, 0x3c);
    hide *;
    FirstSextet(a, b, 0, 0);
    FirstSextet(a, b, Second(b, c), 0);
    SecondSextet(a, b, c, 0);
    ThirdSextet(First(a, b), b, c, c);
  }

  // ------------------------------------------------------------------ encode and decode

  function ChunkLen(data: bytes): nat { if |data| < 3 then |data| else 3 }

  function EncodeChunk(chunk: bytes): (s: string)
    requires 1 <= |chunk| <= 3
    ensures |s| == 4
  {
    var b1 := if |chunk| > 1 then chunk[1] else 0;
    var b2 := if |chunk| > 2 then chunk[2] else 0;
    var word := Word(chunk[0], b1, b2);
    [Symbol(Field0(word)), Symbol(Field1(word)),
     if |chunk| >= 2 then Symbol(Field2(word)) else '=',
     if |chunk| == 3 then Symbol(Field3(word)) else '=']
  }

  function Encoded(data: bytes): string {
    if data == [] then []
    else EncodeChunk(data[..ChunkLen(data)]) + Encoded(data[ChunkLen(data)..])
  }

  lemma EncodedStep(chunk: bytes, rest: bytes)
    requires 1 <= |chunk| <= 3 && (rest == [] || |chunk| == 3)
    ensures Encoded(chunk + rest) == EncodeChunk(chunk) + Encoded(rest)
  {
    hide EncodeChunk;
    var data := chunk + rest;
    assert ChunkLen(data) == |chunk| && data[..|chunk|] == chunk && data[|chunk|..] == rest;
  }

  lemma OneChunk(chunk: bytes)
    requires 1 <= |chunk| <= 3
    ensures Encoded(chunk) == EncodeChunk(chunk)
  {
    hide EncodeChunk;
    EncodedStep(chunk, []);
    assert chunk + [] == chunk && EncodeChunk(chunk) + [] == EncodeChunk(chunk);
  }

  function DecodeChunk(s: string, last: bool): Option<bytes>
    requires |s| == 4
  {
    match (DecodeChar(s[0]), DecodeChar(s[1]))
    case (Some(a), Some(b)) =>
      if s[2] == '=' then
        if s[3] == '=' && last then Some([First(a, b)]) else None
      else (match DecodeChar(s[2])
        case None => None
        case Some(c) =>
          if s[3] == '=' then
            if last then Some([First(a, b), Second(b, c)]) else None
          else match DecodeChar(s[3])
            case None => None
            case Some(d) => Some([First(a, b), Second(b, c), Third(c, d)]))
    case _ => None
  }

  function DecodedChunks(s: string): Option<bytes>
    requires |s| % 4 == 0
    decreases |s|
  {
    if s == [] then Some([])
    else
      match DecodeChunk(s[..4], |s| == 4)
      case None => None
      case Some(x) =>
        match DecodedChunks(s[4..])
        case None => None
        case Some(y) => Some(x + y)
  }

  function Decoded(s: string): Option<bytes> {
    if |s| % 4 != 0 then None else DecodedChunks(s)
  }

  method EncodeBase64(data: bytes) returns (out: string)
    ensures out == Encoded(data)
  {
    hide Encoded, EncodeChunk;
    out := [];
    var i := 0;
    assert data[0..] == data && [] + Encoded(data) == Encoded(data);
    while i < |data|
      invariant 0 <= i <= |data|
      invariant out + Encoded(data[i..]) == Encoded(data)
    {
      var n := if |data| - i < 3 then |data| - i else 3;
      var chunk := data[i..i + n];
      assert data[i..] == chunk + data[i + n..];
      EncodedStep(chunk, data[i + n..]);
      var four := WriteChunk(chunk);
      assert (out + four) + Encoded(data[i + n..]) == out + (four + Encoded(data[i + n..]));
      out := out + four;
      i := i + n;
    }
    assert data[i..] == [] && Encoded([]) == [] by { EncodedNothing(); }
    assert out + [] == out;
  }

  lemma EncodedNothing()
    ensures Encoded([]) == []
  {
  }

  /** The four characters pushed for one chunk. */
  method WriteChunk(chunk: bytes) returns (out: string)
    requires 1 <= |chunk| <= 3
    ensures out == EncodeChunk(chunk)
  {
    hide Symbol, Field0, Field1, Field2, Field3, Word;
    var b0 := chunk[0];
    var b1 := if |chunk| > 1 then chunk[1] else 0;
    var b2 := if |chunk| > 2 then chunk[2] else 0;
    var word := Word(b0, b1, b2);
    out := [];
    out := out + [Symbol(Field0(word))];
    out := out + [Symbol(Field1(word))];
    if |chunk| >= 2 {
      out := out + [Symbol(Field2(word))];
    } else {
      out := out + ['='];
    }
    if |chunk| == 3 {
      out := out + [Symbol(Field3(word))];
    } else {
      out := out + ['='];
    }
  }

  /** `done` has been taken out, `s` is left. */
  function ResumeDecode(done: bytes, s: string): Option<bytes>
    requires |s| % 4 == 0
  {
    match DecodedChunks(s)
    case None => None
    case Some(x) => Some(done + x)
  }

  lemma ResumeStep(done: bytes, s: string)
    requires |s| % 4 == 0 && s != []
    ensures var chunk := DecodeChunk(s[..4], |s| == 4);
            ResumeDecode(done, s) == if chunk.None? then None else ResumeDecode(done + chunk.value, s[4..])
  {
    hide DecodeChunk;
    var chunk := DecodeChunk(s[..4], |s| == 4);
    if chunk.Some? && DecodedChunks(s[4..]).Some? {
      var x := DecodedChunks(s[4..]).value;
      assert done + (chunk.value + x) == (done + chunk.value) + x;
    }
  }

  method DecodeBase64(data: string) returns (r: Option<bytes>)
    ensures r == Decoded(data)
  {
    hide DecodeChar, First, Second, Third, DecodedChunks, ResumeDecode;
    if |data| % 4 != 0 {
      return None;
    }
    var out: bytes := [];
    ResumeStarts(data);
    assert data[0..] == data;
    var i := 0;
    while i < |data|
      invariant 0 <= i <= |data| && (|data| - i) % 4 == 0
      invariant ResumeDecode(out, data[i..]) == DecodedChunks(data)
    {
      var chunk := data[i..i + 4];
      assert data[i..][..4] == chunk && data[i..][4..] == data[i + 4..];
      ResumeStep(out, data[i..]);
      var isLastChunk := i + 4 == |data|;
      var a, b := DecodeChar(chunk[0]), DecodeChar(chunk[1]);
      if a.None? || b.None? {
        return None;
      }
      ghost var before := out;
      out := out + [First(a.value, b.value)];
      if chunk[2] == '=' {
        if chunk[3] != '=' || !isLastChunk {
          return None;
        }
        ResumeEnds(out);
        assert data[i + 4..] == [];
        return Some(out);
      }
      var c := DecodeChar(chunk[2]);
      if chunk[3] == '=' {
        if !isLastChunk || c.None? {
          return None;
        }
        out := out + [Second(b.value, c.value)];
        assert out == before + [First(a.value, b.value), Second(b.value, c.value)];
        ResumeEnds(out);
        assert data[i + 4..] == [];
        return Some(out);
      }
      var d := DecodeChar(chunk[3]);
      if c.None? || d.None? {
        return None;
      }
      out := out + [Second(b.value, c.value)];
      out := out + [Third(c.value, d.value)];
      assert out == before + [First(a.value, b.value), Second(b.value, c.value), Third(c.value, d.value)];
      i := i + 4;
    }
    assert data[i..] == [];
    ResumeEnds(out);
    return Some(out);
  }

  lemma ResumeStarts(s: string)
    requires |s| % 4 == 0
    ensures ResumeDecode([], s) == DecodedChunks(s)
  {
    hide DecodedChunks;
    assert forall x: bytes :: [] + x == x;
  }

  lemma ResumeEnds(done: bytes)
    ensures ResumeDecode(done, []) == Some(done)
  {
    assert done + [] == done;
  }

  // ------------------------------------------------------------------------ round trips

  lemma ChunkRoundTrip(chunk: bytes, last: bool)
    requires 1 <= |chunk| <= 3 && (last || |chunk| == 3)
    ensures DecodeChunk(EncodeChunk(chunk), last) == Some(chunk)
  {
    hide Symbol, DecodeChar, Word, Field0, Field1, Field2, Field3, First, Second, Third, Fits;
    var b1 := if |chunk| > 1 then chunk[1] else 0;
    var b2 := if |chunk| > 2 then chunk[2] else 0;
    var w := Word(chunk[0], b1, b2);
    var s := EncodeChunk(chunk);
    SymbolExactly(s[0], Field0(w));
    SymbolExactly(s[1], Field1(w));
    SymbolExactly(Symbol(Field2(w)), Field2(w));
    SymbolExactly(Symbol(Field3(w)), Field3(w));
    PadIsNoSymbol(Field2(w));
    PadIsNoSymbol(Field3(w));
    BitsRoundTrip(chunk[0], b1, b2);
    if |chunk| == 1 {
      assert chunk == [chunk[0]];
    } else if |chunk| == 2 {
      assert chunk == [chunk[0], chunk[1]];
    } else {
      assert chunk == [chunk[0], chunk[1], chunk[2]];
    }
  }

  lemma {:induction false} EncodedLength(data: bytes)
    ensures |Encoded(data)| == (|data| + 2) / 3 * 4
    decreases |data|
  {
    hide EncodeChunk, Encoded;
    if data == [] {
      EncodedNothing();
    } else {
      var n := ChunkLen(data);
      EncodedLength(data[n..]);
      assert data == data[..n] + data[n..];
      EncodedStep(data[..n], data[n..]);
    }
  }

  /** Decode inverts encode on every byte string. */
  lemma {:induction false} RoundTrip(data: bytes)
    ensures Decoded(Encoded(data)) == Some(data)
    decreases |data|
  {
    hide *;
    if data == [] {
      EncodedNothing();
      DecodedNothing();
    } else {
      var n := if |data| < 3 then |data| else 3;
      var chunk, rest := data[..n], data[n..];
      assert data == chunk + rest;
      RoundTrip(rest);
      EncodedShape(rest);
      EncodedStep(chunk, rest);
      ChunkRoundTrip(chunk, rest == []);
      DecodedStep(EncodeChunk(chunk), Encoded(rest));
    }
  }

  lemma EncodedShape(data: bytes)
    ensures |Encoded(data)| % 4 == 0 && (data == [] <==> |Encoded(data)| == 0)
  {
    hide Encoded;
    EncodedLength(data);
  }

  lemma DecodedNothing()
    ensures Decoded([]) == Some([])
  {
  }

  lemma DecodedStep(head: string, rest: string)
    requires |head| == 4 && |rest| % 4 == 0
    ensures Decoded(head + rest) ==
              match (DecodeChunk(head, |rest| == 0), Decoded(rest)) {
                case (Some(x), Some(y)) => Some(x + y)
                case _ => None
              }
  {
    hide DecodeChunk;
    var s := head + rest;
    assert s[..4] == head && s[4..] == rest;
  }

  // -------------------------------------------------------------------- what is accepted

  predicate IsSymbol(c: char) { DecodeChar(c).Some? }

  /** Quads of symbols, of which the last may end in one or two pads. */
  predicate Grammar(s: string)
    decreases |s|
  {
    s == [] ||
    (|s| >= 4 && IsSymbol(s[0]) && IsSymbol(s[1]) &&
     ((IsSymbol(s[2]) && IsSymbol(s[3]) && Grammar(s[4..])) ||
      (|s| == 4 && s[3] == '=' && (IsSymbol(s[2]) || s[2] == '='))))
  }

  lemma PadDecodesToNothing()
    ensures !IsSymbol('=')
  {
  }

  /** Accepted is exactly what the grammar allows. */
  lemma {:induction false} DecodesExactly(s: string)
    ensures Decoded(s).Some? <==> Grammar(s)
    decreases |s|
  {
    hide DecodeChar, First, Second, Third;
    PadDecodesToNothing();
    if |s| >= 4 {
      DecodesExactly(s[4..]);
      assert |s| == 4 ==> s[4..] == [] && Decoded(s[4..]) == Some([]);
    }
  }

  /** The text with the bits of its last symbol that carry nothing cleared. */
  function Canonical(s: string): string
    requires Grammar(s)
    decreases |s|
  {
    if s == [] then []
    else if s[3] != '=' then (PadDecodesToNothing(); s[..4] + Canonical(s[4..]))
    else if s[2] != '=' then s[..2] + [ClearTo(s[2], 0x3c), '=']
    else s[..1] + [ClearTo(s[1], 0x30), '=', '=']
  }

  function ClearTo(c: char, mask: byte): char
    requires IsSymbol(c)
  {
    SymbolExactly(c, DecodeChar(c).value);
    MaskedFits(DecodeChar(c).value, mask);
    Symbol(DecodeChar(c).value & mask)
  }

  lemma MaskedFits(v: byte, mask: byte)
    requires Sextet(v)
    ensures Sextet(v & mask)
  {
  }

  lemma ChunkCanonical(s: string)
    requires |s| == 4 && Grammar(s)
    ensures DecodeChunk(s, true).Some? && 1 <= |DecodeChunk(s, true).value| <= 3
    ensures EncodeChunk(DecodeChunk(s, true).value) == Canonical(s)
  {
    PadDecodesToNothing();
    hide Symbol, DecodeChar, Word, Field0, Field1, Field2, Field3, First, Second, Third, Fits;
    var a, b := DecodeChar(s[0]).value, DecodeChar(s[1]).value;
    SymbolExactly(s[0], a);
    SymbolExactly(s[1], b);
    assert Canonical(s[4..]) == [];
    if s[2] == '=' {
      PaddedRoundTrip(a, b, b);
    } else {
      var c := DecodeChar(s[2]).value;
      SymbolExactly(s[2], c);
      if s[3] == '=' {
        PaddedRoundTrip(a, b, c);
      } else {
        var d := DecodeChar(s[3]).value;
        SymbolExactly(s[3], d);
        SextetsRoundTrip(a, b, c, d);
        assert s[..4] == s;
      }
    }
  }

  /** Encode inverts decode up to those bits. */
  lemma {:induction false} DecodeThenEncode(s: string)
    requires Grammar(s)
    ensures Decoded(s).Some? && Encoded(Decoded(s).value) == Canonical(s)
    decreases |s|
  {
    DecodesExactly(s);
    hide DecodeChunk, EncodeChunk, DecodeChar, ClearTo;
    if s != [] {
      var head, rest := s[..4], s[4..];
      if |s| == 4 {
        ChunkCanonical(s);
        assert s[..4] == s && rest == [];
        var x := DecodeChunk(s, true).value;
        assert DecodedChunks(rest) == Some([]) && x + [] == x;
        assert Decoded(s) == Some(x);
        OneChunk(x);
      } else {
        DecodeThenEncode(rest);
        PadDecodesToNothing();
        FullChunk(head);
        ChunkCanonical(head);
        var x, y := DecodeChunk(head, false).value, Decoded(rest).value;
        assert (x + y)[..3] == x && (x + y)[3..] == y;
        assert head + [] == head;
        assert Canonical(head) == head;
      }
    }
  }

  lemma FullChunk(s: string)
    requires |s| == 4 && IsSymbol(s[0]) && IsSymbol(s[1]) && IsSymbol(s[2]) && IsSymbol(s[3])
    ensures Grammar(s) && Canonical(s) == s
    ensures DecodeChunk(s, false) == DecodeChunk(s, true) && DecodeChunk(s, false).Some? &&
        |DecodeChunk(s, false).value| == 3
  {
    PadDecodesToNothing();
    assert s[..4] == s && s[4..] == [] && s + [] == s;
  }

  // ----------------------------------------------------------------------- fingerprints

  /** `trim_end_matches('=')`. */
  function TrimPads(s: string): string {
    if s != [] && s[|s| - 1] == '=' then TrimPads(s[..|s| - 1]) else s
  }

  function Fingerprint(digest: bytes): string {
    "SHA256:" + TrimPads(Encoded(digest))
  }

  function Pads(n: nat): string { if n == 0 then [] else ['='] + Pads(n - 1) }

  /** Trimming takes off exactly the pads. */
  lemma {:induction false} TrimmedEncoding(data: bytes)
    ensures var t := TrimPads(Encoded(data));
            Encoded(data) == t + Pads((4 - |t| % 4) % 4)
    decreases |data|
  {
    hide EncodeChunk, Encoded, TrimPads, Pads;
    TrimNothing();
    if data == [] {
    } else if |data| <= 3 {
      OneChunk(data);
      TrimChunk(data);
    } else {
      TrimmedEncoding(data[3..]);
      assert data == data[..3] + data[3..];
      EncodedStep(data[..3], data[3..]);
      var s, rest := EncodeChunk(data[..3]), Encoded(data[3..]);
      TrimTail(s, rest, data[3..]);
      var t := TrimPads(rest);
      PadsAfter(s, t);
    }
  }

  lemma TrimNothing()
    ensures Encoded([]) == [] && TrimPads([]) == [] && Pads(0) == []
  {
  }

  lemma PadsAfter(s: string, t: string)
    requires |s| == 4
    ensures (s + t) + Pads((4 - |s + t| % 4) % 4) == s + (t + Pads((4 - |t| % 4) % 4))
  {
    hide Pads;
    assert |s + t| % 4 == |t| % 4;
  }

  lemma TrimChunk(chunk: bytes)
    requires 1 <= |chunk| <= 3
    ensures var s := EncodeChunk(chunk); var t := TrimPads(s);
            s == t + Pads((4 - |t| % 4) % 4)
  {
    hide Symbol, Word, Field0, Field1, Field2, Field3;
    var s := EncodeChunk(chunk);
    PadIsNoSymbol(Field1(Word(chunk[0], if |chunk| > 1 then chunk[1] else 0, if |chunk| > 2 then chunk[2] else 0)));
    PadIsNoSymbol(Field2(Word(chunk[0], if |chunk| > 1 then chunk[1] else 0, if |chunk| > 2 then chunk[2] else 0)));
    PadIsNoSymbol(Field3(Word(chunk[0], if |chunk| > 1 then chunk[1] else 0, if |chunk| > 2 then chunk[2] else 0)));
    assert Pads(1) == ['='] && Pads(2) == ['=', '='] by { assert Pads(0) == []; }
    if |chunk| == 3 {
      assert TrimPads(s) == s && s + [] == s;
    } else if |chunk| == 2 {
      assert TrimPads(s) == TrimPads(s[..3]) == s[..3];
      assert s == s[..3] + ['='];
    } else {
      assert s[..3][..2] == s[..2];
      assert TrimPads(s) == TrimPads(s[..3]) == TrimPads(s[..2]) == s[..2];
      assert s == s[..2] + ['=', '='];
    }
  }

  /** Pads come last, so a non-empty encoding is never trimmed away. */
  lemma {:induction false} TrimTail(s: string, rest: string, data: bytes)
    requires data != [] && rest == Encoded(data) && |s| == 4
    ensures TrimPads(s + rest) == s + TrimPads(rest)
  {
    EncodedKeepsFirst(data);
    TrimAfter(s, rest);
  }

  lemma EncodedKeepsFirst(data: bytes)
    requires data != []
    ensures Encoded(data) != [] && Encoded(data)[0] != '='
  {
    hide Symbol, Word, Field0, Field1, Field2, Field3;
    var chunk := data[..ChunkLen(data)];
    PadIsNoSymbol(Field0(Word(chunk[0], if |chunk| > 1 then chunk[1] else 0, if |chunk| > 2 then chunk[2] else 0)));
  }

  lemma {:induction false} TrimAfter(s: string, rest: string)
    requires rest != [] && rest[0] != '='
    ensures TrimPads(s + rest) == s + TrimPads(rest) && TrimPads(rest) != []
    decreases |rest|
  {
    if rest[|rest| - 1] == '=' {
      assert (s + rest)[..|s + rest| - 1] == s + rest[..|rest| - 1];
      TrimAfter(s, rest[..|rest| - 1]);
    }
  }

  /** So fingerprints, whose pads are stripped, still tell any two digests apart. */
  lemma FingerprintInjective(x: bytes, y: bytes)
    requires Fingerprint(x) == Fingerprint(y)
    ensures x == y
  {
    hide TrimPads, Encoded, Decoded, Pads;
    var s := Fingerprint(x);
    assert s[7..] == TrimPads(Encoded(x)) && s[7..] == TrimPads(Encoded(y));
    TrimmedEncoding(x);
    TrimmedEncoding(y);
    RoundTrip(x);
    RoundTrip(y);
  }
}
