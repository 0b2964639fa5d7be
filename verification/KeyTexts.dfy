/** The text forms of keys, symbol by symbol and line by line. */
module KeyTexts {
  import opened Bytes
  import opened Wrappers
  import opened Handshake
  import AuthorizedKeys
  import Base64
  import KnownHosts
  import Layouts

  // ----------------------------------------------------------------------------- Base64

  /** The ASCII code of the symbol for a six-bit number (table 1 of RFC 4648). */
  function Code(n: nat): nat
    requires n < 64
  {
    if n < 26 then 0x41 + n
    else if n < 52 then 0x61 + (n - 26)
    else if n < 62 then 0x30 + (n - 52)
    else if n == 62 then 0x2b
    else 0x2f
  }

  lemma SymbolCode(v: byte)
    requires Base64.Sextet(v)
    ensures v as int < 64 && Base64.Symbol(v) as int == Code(v as int)
  {
    hide Base64.AlphabetAt, Read;
    Base64.SextetValue(v);
    Layouts.ByteValue(v);
    AlphabetCode(IntOf(v));
  }

  lemma AlphabetCode(n: nat)
    requires n < 64
    ensures Base64.AlphabetAt(n) as int == Code(n)
  {
  }

  // The shifts and joins of a chunk as numbers.

  function Up2(v: byte): byte { v << 2 }

  function Up4(v: byte): byte { v << 4 }

  function Up6(v: byte): byte { v << 6 }

  function Down2(v: byte): byte { v >> 2 }

  function Down4(v: byte): byte { v >> 4 }

  function Both(v: byte, w: byte): byte { v | w }

  lemma Up2Value(v: byte)
    requires v <= 0x3f
    ensures Up2(v) as int == 4 * (v as int) && Up2(v) & 0x03 == 0
  {
  }

  lemma Up4Value(v: byte)
    ensures Up4(v) as int == 16 * ((v as int) % 16) && Up4(v) & 0x0f == 0
  {
  }

  lemma Up6Value(v: byte)
    ensures Up6(v) as int == 64 * ((v as int) % 4) && Up6(v) & 0x3f == 0
  {
  }

  lemma Down2Value(v: byte)
    requires v <= 0x3f
    ensures Down2(v) as int == (v as int) / 4 && Down2(v) <= 0x0f
  {
  }

  lemma Down4Value(v: byte)
    requires v <= 0x3f
    ensures Down4(v) as int == (v as int) / 16 && Down4(v) <= 0x03
  {
  }

  /** Where no bit is in both, joining is adding. */
  lemma BothValue(v: byte, w: byte)
    requires v & w == 0
    ensures Both(v, w) as int == v as int + w as int
  {
    assert v | w == v + w;
    NoOverflow(v, w);
  }

  lemma NoOverflow(v: byte, w: byte)
    requires v & w == 0
    ensures (v + w) as int == v as int + w as int
  {
    assert v <= 0xff - w;
  }

  lemma Disjoint(v: byte, w: byte)
    ensures v & 0x03 == 0 && w <= 0x03 ==> v & w == 0
    ensures v & 0x0f == 0 && w <= 0x0f ==> v & w == 0
    ensures v & 0x3f == 0 && w <= 0x3f ==> v & w == 0
  {
  }

  lemma SextetBound(v: byte)
    ensures Base64.Sextet(v) <==> v <= 0x3f
  {
  }

  lemma JoinsAre(a: byte, b: byte, c: byte, d: byte)
    ensures Base64.First(a, b) == Both(Up2(a), Down4(b))
    ensures Base64.Second(b, c) == Both(Up4(b), Down2(c))
    ensures Base64.Third(c, d) == Both(Up6(c), d)
  {
  }

  /** A byte as a number, to be hidden where numbers are reckoned with. */
  function Num(v: byte): nat { v as int }

  lemma JoinValues(a: byte, b: byte, c: byte, d: byte)
    requires Base64.Sextet(a) && Base64.Sextet(b) && Base64.Sextet(c) && Base64.Sextet(d)
    ensures Num(Base64.First(a, b)) == 4 * Num(a) + Num(b) / 16
    ensures Num(Base64.Second(b, c)) == 16 * (Num(b) % 16) + Num(c) / 4
    ensures Num(Base64.Third(c, d)) == 64 * (Num(c) % 4) + Num(d)
  {
    hide Base64.Sextet, Base64.First, Base64.Second, Base64.Third, Up2, Up4, Up6, Down2, Down4, Both;
    SextetBound(a);
    SextetBound(b);
    SextetBound(c);
    SextetBound(d);
    JoinsAre(a, b, c, d);
    Up2Value(a);
    Up4Value(b);
    Up6Value(c);
    Down4Value(b);
    Down2Value(c);
    Disjoint(Up2(a), Down4(b));
    Disjoint(Up4(b), Down2(c));
    Disjoint(Up6(c), d);
    BothValue(Up2(a), Down4(b));
    BothValue(Up4(b), Down2(c));
    BothValue(Up6(c), d);
  }

  /** The four six-bit numbers of a chunk; the bytes that it lacks count as zero. */
  function Sextets(chunk: bytes): (v: seq<byte>)
    requires 1 <= |chunk| <= 3
    ensures |v| == 4
  {
    var word := Base64.Word(chunk[0], if |chunk| > 1 then chunk[1] else 0, if |chunk| > 2 then chunk[2] else 0);
    [Base64.Field0(word), Base64.Field1(word), Base64.Field2(word), Base64.Field3(word)]
  }

  lemma WordIsRadix(b0: byte, b1: byte, b2: byte)
    ensures var w := Base64.Word(b0, b1, b2);
            0x1_0000 * Num(b0) + 0x100 * Num(b1) + Num(b2) ==
              0x4_0000 * Num(Base64.Field0(w)) + 0x1000 * Num(Base64.Field1(w)) +
              0x40 * Num(Base64.Field2(w)) + Num(Base64.Field3(w))
  {
    hide *;
    var w := Base64.Word(b0, b1, b2);
    var x, y, z, u := Base64.Field0(w), Base64.Field1(w), Base64.Field2(w), Base64.Field3(w);
    Base64.BitsRoundTrip(b0, b1, b2);
    JoinValues(x, y, z, u);
    SextetNum(x);
    SextetNum(y);
    SextetNum(z);
    SextetNum(u);
    RadixIs(Num(b0), Num(b1), Num(b2), Num(x), Num(y), Num(z), Num(u));
  }

  lemma SextetNum(v: byte)
    requires Base64.Sextet(v)
    ensures Num(v) < 64
  {
    hide Base64.Sextet;
    SymbolCode(v);
  }

  lemma ChunkSymbols(chunk: bytes)
    requires 1 <= |chunk| <= 3
    ensures forall j :: 0 <= j < 4 ==> Base64.Sextet(Sextets(chunk)[j])
    ensures var s := Base64.EncodeChunk(chunk);
            && (forall j :: 0 <= j <= |chunk| ==> s[j] == Base64.Symbol(Sextets(chunk)[j]))
            && (forall j :: |chunk| < j < 4 ==> s[j] == '=')
  {
    hide Base64.Word, Base64.Field0, Base64.Field1, Base64.Field2, Base64.Field3, Base64.Symbol, Base64.Sextet;
  }

  lemma SextetsAre(chunk: bytes)
    requires 1 <= |chunk| <= 3
    ensures var b1: byte, b2: byte := if |chunk| > 1 then chunk[1] else 0, if |chunk| > 2 then chunk[2] else 0;
            var w := Base64.Word(chunk[0], b1, b2);
            Sextets(chunk) == [Base64.Field0(w), Base64.Field1(w), Base64.Field2(w), Base64.Field3(w)]
  {
    hide Base64.Word, Base64.Field0, Base64.Field1, Base64.Field2, Base64.Field3;
  }

  /** Three bytes and their four symbols are the same number, to the base 256 and to the base
      64; the bytes that a chunk lacks count as zero, and a symbol for nothing else is a pad. */
  lemma ChunkIsRadix(chunk: bytes)
    requires 1 <= |chunk| <= 3
    ensures var v := Sextets(chunk);
            var b1: byte, b2: byte := if |chunk| > 1 then chunk[1] else 0, if |chunk| > 2 then chunk[2] else 0;
            && (forall j :: 0 <= j < 4 ==> Num(v[j]) < 64)
            && 0x1_0000 * Num(chunk[0]) + 0x100 * Num(b1) + Num(b2) ==
                 0x4_0000 * Num(v[0]) + 0x1000 * Num(v[1]) + 0x40 * Num(v[2]) + Num(v[3])
    ensures var s := Base64.EncodeChunk(chunk);
            && (forall j :: 0 <= j <= |chunk| ==> s[j] as int == Code(Num(Sextets(chunk)[j])))
            && (forall j :: |chunk| < j < 4 ==> s[j] == '=')
  {
    hide *;
    ChunkSymbols(chunk);
    SextetsAre(chunk);
    WordIsRadix(chunk[0], if |chunk| > 1 then chunk[1] else 0, if |chunk| > 2 then chunk[2] else 0);
    forall j | 0 <= j < 4
      ensures Num(Sextets(chunk)[j]) < 64
      ensures Base64.Symbol(Sextets(chunk)[j]) as int == Code(Num(Sextets(chunk)[j]))
    {
      SextetNum(Sextets(chunk)[j]);
      SymbolNum(Sextets(chunk)[j]);
    }
  }

  lemma SymbolNum(v: byte)
    requires Base64.Sextet(v)
    ensures Num(v) < 64 && Base64.Symbol(v) as int == Code(Num(v))
  {
    hide Base64.Sextet, Base64.Symbol, Code;
    SymbolCode(v);
  }

  lemma RadixIs(b0: nat, b1: nat, b2: nat, x: nat, y: nat, z: nat, u: nat)
    requires x < 64 && y < 64 && z < 64 && u < 64
    requires b0 == 4 * x + y / 16 && b1 == 16 * (y % 16) + z / 4 && b2 == 64 * (z % 4) + u
    ensures 0x1_0000 * b0 + 0x100 * b1 + b2 == 0x4_0000 * x + 0x1000 * y + 0x40 * z + u
  {
  }

  /** The encoding is chunk by chunk. */
  lemma {:induction false} ChunkAt(data: bytes, j: nat)
    requires 3 * j < |data|
    ensures var n := if |data| < 3 * j + 3 then |data| else 3 * j + 3;
            && 4 * j + 4 <= |Base64.Encoded(data)|
            && Base64.Encoded(data)[4 * j..4 * j + 4] == Base64.EncodeChunk(data[3 * j..n])
    decreases |data|
  {
    hide Base64.EncodeChunk, Base64.Encoded;
    EncodedFirst(data);
    if j > 0 {
      ChunkAt(data[3..], j - 1);
      var s, rest := Base64.EncodeChunk(data[..3]), Base64.Encoded(data[3..]);
      Further(s, rest, 4 * (j - 1));
      var m := if |data| < 3 * j + 3 then |data| else 3 * j + 3;
      assert data[3..][3 * (j - 1)..m - 3] == data[3 * j..m];
    }
  }

  lemma EncodedFirst(data: bytes)
    requires data != []
    ensures var n := Base64.ChunkLen(data); var s := Base64.EncodeChunk(data[..n]);
            && Base64.Encoded(data) == s + Base64.Encoded(data[n..]) && Base64.Encoded(data)[..4] == s
            && n == if |data| < 3 then |data| else 3
  {
    hide Base64.EncodeChunk;
  }

  lemma Further(s: string, rest: string, k: nat)
    requires |s| == 4 && k + 4 <= |rest|
    ensures (s + rest)[k + 4..k + 8] == rest[k..k + 4]
  {
  }

  lemma {:induction false} EncodedSize(data: bytes)
    ensures |Base64.Encoded(data)| == (|data| + 2) / 3 * 4
    decreases |data|
  {
    hide Base64.EncodeChunk;
    if data != [] {
      EncodedSize(data[Base64.ChunkLen(data)..]);
    }
  }

  /** The text of a digest: a label, then its encoding as far as the pads. */
  lemma FingerprintExactly(digest: bytes)
    ensures var f := Base64.Fingerprint(digest);
            && |f| >= 7 && f[..7] == "SHA256:" && f[7..] <= Base64.Encoded(digest)
            && (|f| > 7 ==> f[|f| - 1] != '=')
            && (forall i :: |f| - 7 <= i < |Base64.Encoded(digest)| ==> Base64.Encoded(digest)[i] == '=')
  {
    hide Base64.Encoded;
    TrimPadsExactly(Base64.Encoded(digest));
  }

  lemma {:induction false} TrimPadsExactly(s: string)
    ensures var t := Base64.TrimPads(s);
            && t <= s && (t != [] ==> t[|t| - 1] != '=') && (forall i :: |t| <= i < |s| ==> s[i] == '=')
    decreases |s|
  {
    if s != [] && s[|s| - 1] == '=' {
      TrimPadsExactly(s[..|s| - 1]);
    }
  }

  // ------------------------------------------------------------------------------- lines

  /** What a line holds, the white space around it left out. */
  lemma TrimExactly(s: string) returns (before: string, after: string)
    ensures var t := KnownHosts.Trim(s);
            && s == before + t + after && (forall c :: c in before + after ==> KnownHosts.IsWhitespace(c))
            && (t != [] ==> !KnownHosts.IsWhitespace(t[0]) && !KnownHosts.IsWhitespace(t[|t| - 1]))
  {
    hide KnownHosts.IsWhitespace;
    before := TrimStartExactly(s);
    after := TrimEndExactly(KnownHosts.TrimStart(s));
    var t := KnownHosts.Trim(s);
    assert s == before + (t + after) == before + t + after;
    if t != [] {
      assert t[0] == (t + after)[0];
    }
  }

  lemma {:induction false} TrimStartExactly(s: string) returns (before: string)
    ensures var t := KnownHosts.TrimStart(s);
            && s == before + t && (forall c :: c in before ==> KnownHosts.IsWhitespace(c))
            && (t != [] ==> !KnownHosts.IsWhitespace(t[0]))
    decreases |s|
  {
    hide KnownHosts.IsWhitespace;
    before := [];
    if s != [] && KnownHosts.IsWhitespace(s[0]) {
      var rest := TrimStartExactly(s[1..]);
      before := [s[0]] + rest;
      assert s == [s[0]] + s[1..];
    }
  }

  lemma {:induction false} TrimEndExactly(s: string) returns (after: string)
    ensures var t := KnownHosts.TrimEnd(s);
            && s == t + after && (forall c :: c in after ==> KnownHosts.IsWhitespace(c))
            && (t != [] ==> !KnownHosts.IsWhitespace(t[|t| - 1]))
    decreases |s|
  {
    hide KnownHosts.IsWhitespace;
    after := [];
    if s != [] && KnownHosts.IsWhitespace(s[|s| - 1]) {
      var rest := TrimEndExactly(s[..|s| - 1]);
      after := rest + [s[|s| - 1]];
      assert s == s[..|s| - 1] + [s[|s| - 1]];
    }
  }

  /** The characters with the Unicode White_Space property, by their code points. */
  lemma WhiteSpaceIs(c: char)
    ensures KnownHosts.IsWhitespace(c) <==>
            c as int in {0x09, 0x0a, 0x0b, 0x0c, 0x0d, 0x20, 0x85, 0xa0, 0x1680, 0x2000, 0x2001, 0x2002, 0x2003, 0x2004,
                         0x2005, 0x2006, 0x2007, 0x2008, 0x2009, 0x200a, 0x2028, 0x2029, 0x202f, 0x205f, 0x3000}
  {
  }

  /** The file after an append: what it held, a newline if that was there and did not end in
      one, and one line of host, kind and key. */
  lemma AppendedLayout(text: string, host: string, key: bytes)
    ensures var line := host + " mldsa-ed25519 " + Base64.Encoded(key) + "\n";
            KnownHosts.Appended(text, host, key) ==
              if text != [] && text[|text| - 1] != '\n' then text + "\n" + line else text + line
  {
    hide Base64.Encoded;
    assert KnownHosts.FormatHost(host, key) + ['\n'] == host + " mldsa-ed25519 " + Base64.Encoded(key) + "\n";
    assert text + [] == text;
  }

  /** A key: its kind, one space, and an encoding that is not empty. */
  lemma ParseKeyExactly(line: string, key: bytes)
    ensures KnownHosts.ParseKey(line) == Some(key) <==>
            |line| > 14 && line[..14] == "mldsa-ed25519 " && Base64.Decoded(line[14..]) == Some(key)
  {
    hide Base64.Decoded;
    var k := KnownHosts.Find(line, ' ');
    if |line| > 14 && line[..14] == "mldsa-ed25519 " {
      assert line[..14][13] == ' ' && line[..13] == "mldsa-ed25519 "[..13] == KnownHosts.KIND;
      KnownHosts.KindIsPlain();
      KnownHosts.FindIs(line, ' ', 13);
    } else if k < |line| && line[..k] == KnownHosts.KIND {
      assert line[..14] == line[..13] + [line[13]] == "mldsa-ed25519 ";
    }
  }

  /** A host: the part before the first space, not empty, and a key after it. */
  lemma ParseHostExactly(line: string, host: string, key: bytes)
    ensures KnownHosts.ParseHost(line) == Some((host, key)) <==>
            && host != [] && ' ' !in host && |host| < |line| && line[..|host|] == host && line[|host|] == ' '
            && KnownHosts.ParseKey(line[|host| + 1..]) == Some(key)
  {
    hide KnownHosts.ParseKey;
    if |host| < |line| && line[..|host|] == host && line[|host|] == ' ' && ' ' !in host {
      KnownHosts.FindIs(line, ' ', |host|);
    }
  }

  // ------------------------------------------------------------------------------- files

  /** What a line comes to: nothing, if it is blank or a comment; an entry; or an error. */
  datatype Spelling<K, V> = Skipped | Malformed | Entry(key: K, value: V)

  function Spelt<K, V>(line: string, parse: string -> Option<(K, V)>): Spelling<K, V> {
    var t := KnownHosts.Trim(line);
    if t == [] || t[0] == '#' then Skipped
    else match parse(t)
      case None => Malformed
      case Some((key, value)) => Entry(key, value)
  }

  /** The loop that both files are loaded with. */
  function Fold<K(==), V>(lines: seq<string>, parse: string -> Option<(K, V)>, found: map<K, V>): Option<map<K, V>>
    decreases |lines|
  {
    if lines == [] then Some(found)
    else match Spelt(lines[0], parse)
      case Skipped => Fold(lines[1..], parse, found)
      case Malformed => None
      case Entry(key, value) => if key in found then None else Fold(lines[1..], parse, found[key := value])
  }

  /** Every line that is no comment is an entry, under a key of its own. */
  predicate WellFormed<K(==), V>(lines: seq<string>, parse: string -> Option<(K, V)>, found: map<K, V>) {
    && (forall i :: 0 <= i < |lines| ==> !Spelt(lines[i], parse).Malformed?)
    && (forall i :: 0 <= i < |lines| && Spelt(lines[i], parse).Entry? ==> Spelt(lines[i], parse).key !in found)
    && (forall i, j :: 0 <= i < j < |lines| && Spelt(lines[i], parse).Entry? && Spelt(lines[j], parse).Entry? ==>
          Spelt(lines[i], parse).key != Spelt(lines[j], parse).key)
  }

  predicate Finds<K(==), V(==)>(found: map<K, V>, key: K, value: V) { key in found && found[key] == value }

  predicate Holds<K(==), V(==)>(lines: seq<string>, parse: string -> Option<(K, V)>, key: K, value: V) {
    exists i :: 0 <= i < |lines| && Spelt(lines[i], parse) == Entry(key, value)
  }

  lemma WellFormedNext<K, V>(lines: seq<string>, parse: string -> Option<(K, V)>, found: map<K, V>)
    requires lines != []
    ensures WellFormed(lines, parse, found) <==>
            match Spelt(lines[0], parse)
            case Skipped => WellFormed(lines[1..], parse, found)
            case Malformed => false
            case Entry(key, value) => key !in found && WellFormed(lines[1..], parse, found[key := value])
  {
    hide Spelt;
    var first, rest := Spelt(lines[0], parse), lines[1..];
    assert forall i :: 0 <= i < |rest| ==> lines[i + 1] == rest[i];
    assert forall i :: 0 < i < |lines| ==> lines[i] == rest[i - 1];
    if first.Entry? {
      var next := found[first.key := first.value];
      if first.key !in found && WellFormed(rest, parse, next) {
        forall i | 0 <= i < |lines| && Spelt(lines[i], parse).Entry? ensures Spelt(lines[i], parse).key !in found {
          assert i > 0 ==> Spelt(rest[i - 1], parse).key !in next;
        }
        forall i, j | 0 <= i < j < |lines| && Spelt(lines[i], parse).Entry? && Spelt(lines[j], parse).Entry?
          ensures Spelt(lines[i], parse).key != Spelt(lines[j], parse).key
        {
          assert Spelt(rest[j - 1], parse).key !in next;
        }
      }
      if WellFormed(lines, parse, found) {
        forall i | 0 <= i < |rest| && Spelt(rest[i], parse).Entry? ensures Spelt(rest[i], parse).key !in next {
          assert Spelt(lines[i + 1], parse).key !in found;
          assert Spelt(lines[0], parse).key != Spelt(lines[i + 1], parse).key;
        }
        WellFormedTail(lines, parse, found);
      }
    } else if WellFormed(lines, parse, found) {
      WellFormedTail(lines, parse, found);
    }
  }

  lemma WellFormedTail<K, V>(lines: seq<string>, parse: string -> Option<(K, V)>, found: map<K, V>)
    requires lines != [] && WellFormed(lines, parse, found)
    ensures WellFormed(lines[1..], parse, found)
  {
    hide Spelt;
    var rest := lines[1..];
    forall i, j | 0 <= i < j < |rest| && Spelt(rest[i], parse).Entry? && Spelt(rest[j], parse).Entry?
      ensures Spelt(rest[i], parse).key != Spelt(rest[j], parse).key
    {
      assert lines[i + 1] == rest[i] && lines[j + 1] == rest[j];
    }
    assert forall i :: 0 <= i < |rest| ==> rest[i] == lines[i + 1];
  }

  lemma HoldsNext<K, V>(lines: seq<string>, parse: string -> Option<(K, V)>, key: K, value: V)
    requires lines != []
    ensures Holds(lines, parse, key, value) <==>
            Spelt(lines[0], parse) == Entry(key, value) || Holds(lines[1..], parse, key, value)
  {
    hide Spelt;
    var rest := lines[1..];
    if Holds(rest, parse, key, value) {
      var i :| 0 <= i < |rest| && Spelt(rest[i], parse) == Entry(key, value);
      assert Spelt(lines[i + 1], parse) == Entry(key, value);
    }
    if Holds(lines, parse, key, value) {
      var i :| 0 <= i < |lines| && Spelt(lines[i], parse) == Entry(key, value);
      assert i > 0 ==> Spelt(rest[i - 1], parse) == Entry(key, value);
    }
  }

  /** It succeeds on well-formed lines and on no others, and then holds what it held, and
      exactly the entries of the lines. */
  lemma {:induction false} FoldExactly<K, V>(lines: seq<string>, parse: string -> Option<(K, V)>, found: map<K, V>)
    ensures var r := Fold(lines, parse, found);
            && (r.Some? <==> WellFormed(lines, parse, found))
            && (r.Some? ==> forall key, value ::
                  Finds(r.value, key, value) <==> Finds(found, key, value) || Holds(lines, parse, key, value))
    decreases |lines|
  {
    hide Spelt, WellFormed, Holds, Finds;
    if lines == [] {
      NoLines(parse, found);
    } else {
      var first, rest := Spelt(lines[0], parse), lines[1..];
      WellFormedNext(lines, parse, found);
      forall key, value
        ensures Holds(lines, parse, key, value) <==> first == Entry(key, value) || Holds(rest, parse, key, value)
      {
        HoldsNext(lines, parse, key, value);
      }
      if first.Skipped? {
        FoldExactly(rest, parse, found);
      } else if first.Entry? && first.key !in found {
        FoldExactly(rest, parse, found[first.key := first.value]);
        forall key, value
          ensures Finds(found[first.key := first.value], key, value) <==>
                  Finds(found, key, value) || first == Entry(key, value)
        {
          FindsNext(found, first.key, first.value, key, value);
        }
      }
    }
  }

  lemma FindsNext<K, V>(found: map<K, V>, k: K, v: V, key: K, value: V)
    requires k !in found
    ensures Finds(found[k := v], key, value) <==> Finds(found, key, value) || (key == k && value == v)
  {
  }

  lemma NoLines<K, V>(parse: string -> Option<(K, V)>, found: map<K, V>)
    ensures WellFormed([], parse, found) && (forall key, value :: !Holds([], parse, key, value))
  {
  }

  /** How each file spells its entries. */
  function HostLine(): string -> Option<(string, bytes)> { line => KnownHosts.ParseHost(line) }

  function KeyLine(sha: Hash): string -> Option<(Bytes32, bytes)> {
    line => match KnownHosts.ParseKey(line) { case None => None case Some(key) => Some((sha(key), key)) }
  }

  lemma {:induction false} HostsAreFolded(lines: seq<string>, found: KnownHosts.Hosts)
    ensures KnownHosts.LoadLines(lines, found) == Fold(lines, HostLine(), found)
    decreases |lines|
  {
    hide KnownHosts.Trim, KnownHosts.ParseHost;
    if lines != [] {
      var next := KnownHosts.LoadLine(KnownHosts.Trim(lines[0]), found);
      if next.Some? {
        HostsAreFolded(lines[1..], next.value);
      }
    }
  }

  lemma {:induction false} KeysAreFolded(lines: seq<string>, found: AuthorizedKeys.Keys, sha: Hash)
    ensures AuthorizedKeys.LoadLines(lines, found, sha) == Fold(lines, KeyLine(sha), found)
    decreases |lines|
  {
    hide KnownHosts.Trim, KnownHosts.ParseKey;
    if lines != [] {
      var next := AuthorizedKeys.LoadLine(KnownHosts.Trim(lines[0]), found, sha);
      if next.Some? {
        KeysAreFolded(lines[1..], next.value, sha);
      }
    }
  }

  /** The known hosts load iff every line that is neither blank nor a comment spells a host
      and its key, and no two the same host; they are then exactly those hosts and keys. */
  lemma KnownHostsExactly(text: string)
    ensures var lines, r := KnownHosts.Lines(text), KnownHosts.Load(text);
            && (r.Some? <==> WellFormed(lines, HostLine(), map[]))
            && (r.Some? ==> forall host, key :: Finds(r.value, host, key) <==> Holds(lines, HostLine(), host, key))
  {
    hide KnownHosts.Lines, KnownHosts.LoadLines, Fold, WellFormed, Holds;
    HostsAreFolded(KnownHosts.Lines(text), map[]);
    FoldExactly(KnownHosts.Lines(text), HostLine(), map[]);
  }

  /** The authorized keys load iff every such line spells a key, and no two keys of the same
      digest; they are then exactly those keys, each under its own digest. */
  lemma AuthorizedKeysExactly(text: string, sha: Hash)
    ensures var lines, r := KnownHosts.Lines(text), AuthorizedKeys.LoadLines(KnownHosts.Lines(text), map[], sha);
            && (r.Some? <==> WellFormed(lines, KeyLine(sha), map[]))
            && (r.Some? ==> forall d, key :: Finds(r.value, d, key) <==> Holds(lines, KeyLine(sha), d, key))
  {
    hide KnownHosts.Lines, AuthorizedKeys.LoadLines, Fold, WellFormed, Holds;
    KeysAreFolded(KnownHosts.Lines(text), map[], sha);
    FoldExactly(KnownHosts.Lines(text), KeyLine(sha), map[]);
  }

  /** What the lines of either file spell. */
  lemma SpeltExactly(line: string, host: string, key: bytes, sha: Hash)
    ensures var t := KnownHosts.Trim(line);
            && (Spelt(line, HostLine()).Skipped? <==> t == [] || t[0] == '#')
            && (Spelt(line, KeyLine(sha)).Skipped? <==> t == [] || t[0] == '#')
            && (Spelt(line, HostLine()) == Entry(host, key) <==>
                  t != [] && t[0] != '#' && KnownHosts.ParseHost(t) == Some((host, key)))
            && (Spelt(line, KeyLine(sha)) == Entry(sha(key), key) <==>
                  t != [] && t[0] != '#' && KnownHosts.ParseKey(t) == Some(key))
  {
    hide KnownHosts.Trim, KnownHosts.ParseHost, KnownHosts.ParseKey;
  }
}
