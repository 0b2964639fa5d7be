/** The known-hosts store: lines of "host kind base64", loaded into a map and appended to.
    Text is a sequence of Unicode characters. */
module KnownHosts {
  import opened Bytes
  import opened Wrappers
  import Base64

  const KIND: string := "mldsa-ed25519"

  type Hosts = map<string, bytes>

  // ------------------------------------------------------------------------------ text

  /** The characters with the Unicode White_Space property. */
  predicate IsWhitespace(c: char) {
    var n := c as int;
    || 0x09 <= n <= 0x0d || n == 0x20 || n == 0x85 || n == 0xa0 || n == 0x1680
    || 0x2000 <= n <= 0x200a || n == 0x2028 || n == 0x2029 || n == 0x202f || n == 0x205f || n == 0x3000
  }

  function TrimStart(s: string): string {
    if s != [] && IsWhitespace(s[0]) then TrimStart(s[1..]) else s
  }

  function TrimEnd(s: string): string {
    if s != [] && IsWhitespace(s[|s| - 1]) then TrimEnd(s[..|s| - 1]) else s
  }

  function Trim(s: string): string { TrimEnd(TrimStart(s)) }

  /** Where `c` first is, or the length. */
  function Find(s: string, c: char): (k: nat)
    ensures k <= |s| && c !in s[..k] && (k < |s| ==> s[k] == c)
    ensures k == |s| ==> c !in s
  {
    if s == [] || s[0] == c then 0 else 1 + Find(s[1..], c)
  }

  function SplitOnce(s: string, c: char): Option<(string, string)> {
    var k := Find(s, c);
    if k == |s| then None else Some((s[..k], s[k + 1..]))
  }

  function StripReturn(s: string): string {
    if s != [] && s[|s| - 1] == '\r' then s[..|s| - 1] else s
  }

  /** `str::lines`: a line that the text ends in without a newline keeps its return. */
  function Lines(text: string): seq<string>
    decreases |text|
  {
    if text == [] then []
    else
      var k := Find(text, '\n');
      if k == |text| then [text] else [StripReturn(text[..k])] + Lines(text[k + 1..])
  }

  // ----------------------------------------------------------------------------- lines

  function FormatKey(key: bytes): string {
    KIND + [' '] + Base64.Encoded(key)
  }

  function ParseKey(line: string): Option<bytes> {
    match SplitOnce(line, ' ')
    case None => None
    case Some((kind, encoded)) =>
      if kind != KIND || encoded == [] then None else Base64.Decoded(encoded)
  }

  function FormatHost(host: string, key: bytes): string {
    host + [' '] + FormatKey(key)
  }

  function ParseHost(line: string): Option<(string, bytes)> {
    match SplitOnce(line, ' ')
    case None => None
    case Some((host, rest)) =>
      if host == [] then None
      else match ParseKey(rest)
        case None => None
        case Some(key) => Some((host, key))
  }

  // ---------------------------------------------------------------------- loading a file

  predicate IsSkipped(line: string) { line == [] || line[0] == '#' }

  /** One line, already trimmed: a malformed entry or a host twice is an error. */
  function LoadLine(line: string, hosts: Hosts): Option<Hosts> {
    if IsSkipped(line) then Some(hosts)
    else
      match ParseHost(line)
      case None => None
      case Some((host, key)) => if host in hosts then None else Some(hosts[host := key])
  }

  function LoadLines(lines: seq<string>, hosts: Hosts): Option<Hosts> {
    if lines == [] then Some(hosts)
    else
      match LoadLine(Trim(lines[0]), hosts)
      case None => None
      case Some(next) => LoadLines(lines[1..], next)
  }

  function Load(text: string): Option<Hosts> { LoadLines(Lines(text), map[]) }

  predicate NeedsNewline(text: string) { text != [] && text[|text| - 1] != '\n' }

  function Appended(text: string, host: string, key: bytes): string {
    text + (if NeedsNewline(text) then ['\n'] else []) + FormatHost(host, key) + ['\n']
  }

  /** The file; no contents if it does not exist. */
  class KnownHostsFile {
    var contents: Option<string>

    function Text(): string
      reads this
    {
      if contents.None? then [] else contents.value
    }

    method LoadKnownHosts() returns (hosts: Option<Hosts>)
      ensures hosts == Load(Text())
    {
      if contents.None? {
        return Some(map[]);
      }
      var lines, found: Hosts := Lines(contents.value), map[];
      for i := 0 to |lines|
        invariant LoadLines(lines[i..], found) == Load(Text())
      {
        assert lines[i..][1..] == lines[i + 1..];
        var line := Trim(lines[i]);
        if line == [] || line[0] == '#' {
          continue;
        }
        var parsed := ParseHost(line);
        if parsed.None? {
          return None;
        }
        var (host, key) := parsed.value;
        if host in found {
          return None;
        }
        found := found[host := key];
      }
      return Some(found);
    }

    method AppendKnownHost(host: string, key: bytes)
      modifies this
      ensures contents == Some(Appended(old(Text()), host, key))
    {
      var text := Text();
      var needsNewline := text != [] && text[|text| - 1] != '\n';
      if needsNewline {
        text := text + ['\n'];
      }
      text := text + FormatHost(host, key);
      text := text + ['\n'];
      contents := Some(text);
      assert old(Text()) + [] == old(Text());
    }
  }

  // --------------------------------------------------------------- the shape of the text

  lemma {:induction false} FindIs(s: string, c: char, k: nat)
    requires k < |s| && s[k] == c && c !in s[..k]
    ensures Find(s, c) == k
  {
    if k > 0 {
      assert s[0] == s[..k][0] && s[1..][..k - 1] == s[..k][1..];
      FindIs(s[1..], c, k - 1);
    }
  }

  /** The first line of a text, ended by a newline at `k`. */
  lemma LinesStep(line: string, rest: string)
    requires '\n' !in line
    ensures Lines(line + ['\n'] + rest) == [StripReturn(line)] + Lines(rest)
  {
    hide StripReturn;
    var text := line + ['\n'] + rest;
    assert text[..|line|] == line && text[|line| + 1..] == rest;
    FindIs(text, '\n', |line|);
  }

  lemma Associates(x: string, y: string, z: string)
    ensures (x + y) + z == x + (y + z)
  {
  }

  lemma {:induction false} LinesAppend(text: string, more: string)
    requires text == [] || text[|text| - 1] == '\n'
    ensures Lines(text + more) == Lines(text) + Lines(more)
    decreases |text|
  {
    hide StripReturn, Find, Lines;
    if text == [] {
      assert text + more == more && Lines([]) == [] by { LinesNothing(); }
    } else {
      var k := Find(text, '\n');
      assert text[|text| - 1] in text;
      var line, rest := text[..k], text[k + 1..];
      assert text == line + ['\n'] + rest;
      Associates(line + ['\n'], rest, more);
      LinesStep(line, rest);
      LinesStep(line, rest + more);
      LinesAppend(rest, more);
    }
  }

  lemma LinesNothing()
    ensures Lines([]) == []
  {
  }

  lemma {:induction false} LoadLinesAppend(x: seq<string>, y: seq<string>, hosts: Hosts)
    ensures LoadLines(x + y, hosts) ==
              match LoadLines(x, hosts) { case None => None case Some(next) => LoadLines(y, next) }
    decreases |x|
  {
    hide LoadLine, Trim;
    if x == [] {
      assert x + y == y;
    } else {
      assert (x + y)[1..] == x[1..] + y;
      var next := LoadLine(Trim(x[0]), hosts);
      if next.Some? {
        LoadLinesAppend(x[1..], y, next.value);
      }
    }
  }

  lemma {:induction false} TrimEndStrip(s: string)
    ensures Trim(StripReturn(s)) == Trim(s)
    decreases |s|
  {
    if s != [] && s[|s| - 1] == '\r' {
      TrimStartStrip(s);
    }
  }

  lemma {:induction false} TrimStartStrip(s: string)
    requires s != [] && s[|s| - 1] == '\r'
    ensures TrimEnd(TrimStart(s[..|s| - 1])) == TrimEnd(TrimStart(s))
    decreases |s|
  {
    var t := s[..|s| - 1];
    if |s| > 1 && IsWhitespace(s[0]) {
      assert s[1..][..|s[1..]| - 1] == t[1..];
      TrimStartStrip(s[1..]);
    } else if |s| == 1 {
      assert t == [] && TrimStart(s) == TrimStart(s[1..]) == [];
    }
  }

  /** A final newline more makes no difference. */
  lemma {:induction false} FinalNewline(text: string, hosts: Hosts)
    requires NeedsNewline(text)
    ensures LoadLines(Lines(text + ['\n']), hosts) == LoadLines(Lines(text), hosts)
    decreases |text|
  {
    hide LoadLine, Trim, StripReturn, Find, Lines;
    var k := Find(text, '\n');
    LinesNothing();
    if k == |text| {
      assert text + ['\n'] + [] == text + ['\n'];
      LinesStep(text, []);
      OneUnendedLine(text);
      TrimEndStrip(text);
      assert [StripReturn(text)] + [] == [StripReturn(text)] && [StripReturn(text)][1..] == [text][1..] == [];
    } else {
      var line, rest := text[..k], text[k + 1..];
      assert text == line + ['\n'] + rest;
      Associates(line + ['\n'], rest, ['\n']);
      LinesStep(line, rest);
      LinesStep(line, rest + ['\n']);
      var next := LoadLine(Trim(StripReturn(line)), hosts);
      if next.Some? {
        FinalNewline(rest, next.value);
      }
    }
  }

  lemma OneUnendedLine(text: string)
    requires text != [] && '\n' !in text
    ensures Lines(text) == [text]
  {
    var k := Find(text, '\n');
    FoundIsIn(text, '\n');
  }

  lemma FoundIsIn(s: string, c: char)
    requires c !in s
    ensures Find(s, c) == |s|
  {
  }

  // ---------------------------------------------------------------------- one new entry

  /** A host name that a line can begin with. */
  predicate HostOk(host: string) {
    host != [] && ' ' !in host && '\n' !in host && !IsWhitespace(host[0]) && host[0] != '#'
  }

  /** Symbols and pads are plain characters. */
  predicate Plain(c: char) { !IsWhitespace(c) }

  lemma ChunkIsPlain(chunk: bytes)
    requires 1 <= |chunk| <= 3
    ensures forall c :: c in Base64.EncodeChunk(chunk) ==> Plain(c)
  {
    forall c | c in Base64.EncodeChunk(chunk) ensures Plain(c) {
      if c != '=' {
        SymbolIsPlain(c, chunk);
      }
    }
  }

  lemma SymbolIsPlain(c: char, chunk: bytes)
    requires 1 <= |chunk| <= 3 && c in Base64.EncodeChunk(chunk) && c != '='
    ensures Plain(c)
  {
    hide Base64.Symbol, Base64.Word, Base64.Field0, Base64.Field1, Base64.Field2, Base64.Field3, Base64.DecodeChar;
    var b1 := if |chunk| > 1 then chunk[1] else 0;
    var b2 := if |chunk| > 2 then chunk[2] else 0;
    var w := Base64.Word(chunk[0], b1, b2);
    Base64.SymbolExactly(Base64.Symbol(Base64.Field0(w)), Base64.Field0(w));
    Base64.SymbolExactly(Base64.Symbol(Base64.Field1(w)), Base64.Field1(w));
    Base64.SymbolExactly(Base64.Symbol(Base64.Field2(w)), Base64.Field2(w));
    Base64.SymbolExactly(Base64.Symbol(Base64.Field3(w)), Base64.Field3(w));
    DecodableIsPlain(c);
  }

  lemma DecodableIsPlain(c: char)
    ensures Base64.DecodeChar(c).Some? ==> Plain(c)
  {
  }

  lemma {:induction false} EncodingIsPlain(key: bytes)
    ensures forall c :: c in Base64.Encoded(key) ==> Plain(c)
    ensures key != [] ==> Base64.Encoded(key) != []
    decreases |key|
  {
    hide Base64.EncodeChunk, Plain;
    if key != [] {
      var n := Base64.ChunkLen(key);
      ChunkIsPlain(key[..n]);
      EncodingIsPlain(key[n..]);
    }
  }

  lemma KindIsPlain()
    ensures ' ' !in KIND && '\n' !in KIND && KIND != [] && !IsWhitespace(KIND[|KIND| - 1])
  {
  }

  lemma SpaceIsWhite()
    ensures IsWhitespace(' ') && IsWhitespace('\n') && IsWhitespace('\r')
  {
  }

  lemma SplitAtFirst(x: string, y: string, c: char)
    requires c !in x
    ensures SplitOnce(x + [c] + y, c) == Some((x, y))
  {
    var s := x + [c] + y;
    assert s[..|x|] == x && s[|x| + 1..] == y && s[|x|] == c;
    FindIs(s, c, |x|);
  }

  lemma NoNewlineInside(host: string, key: bytes)
    requires '\n' !in host
    ensures '\n' !in FormatHost(host, key)
  {
    KindIsPlain();
    SpaceIsWhite();
    EncodingIsPlain(key);
    hide IsWhitespace, Base64.Encoded;
  }

  lemma OneLine(line: string)
    requires '\n' !in line
    ensures Lines(line + ['\n']) == [StripReturn(line)]
  {
    hide StripReturn, Lines;
    LinesStep(line, []);
    LinesNothing();
    assert line + ['\n'] + [] == line + ['\n'] && [StripReturn(line)] + [] == [StripReturn(line)];
  }

  /** What a formatted line parses to after trimming. */
  lemma FormattedParses(host: string, key: bytes)
    requires HostOk(host)
    ensures ParseHost(Trim(FormatHost(host, key))) == if key == [] then None else Some((host, key))
    ensures !IsSkipped(Trim(FormatHost(host, key)))
  {
    var line := FormatHost(host, key);
    KindIsPlain();
    SpaceIsWhite();
    EncodingIsPlain(key);
    Base64.RoundTrip(key);
    hide IsWhitespace, Base64.Encoded, Base64.Decoded, SplitOnce, KIND;
    assert line[0] == host[0];
    assert TrimStart(line) == line;
    if key == [] {
      assert Base64.Encoded([]) == [] by { Base64.EncodedNothing(); }
      var short := host + [' '] + KIND;
      assert line == short + [' '] && line[..|line| - 1] == short;
      assert short[|short| - 1] == KIND[|KIND| - 1];
      assert TrimEnd(line) == TrimEnd(short) == short;
      SplitAtFirst(host, KIND, ' ');
      NoSplit(KIND);
    } else {
      var encoded := Base64.Encoded(key);
      var last := encoded[|encoded| - 1];
      assert last in encoded && Plain(last) && line[|line| - 1] == last;
      assert TrimEnd(line) == line;
      SplitAtFirst(host, FormatKey(key), ' ');
      SplitAtFirst(KIND, encoded, ' ');
    }
  }

  lemma NoSplit(s: string)
    requires ' ' !in s
    ensures SplitOnce(s, ' ') == None
  {
    FoundIsIn(s, ' ');
  }

  lemma EntryLoads(host: string, key: bytes, hosts: Hosts)
    requires HostOk(host)
    ensures LoadLines(Lines(FormatHost(host, key) + ['\n']), hosts)
         == if key == [] || host in hosts then None else Some(hosts[host := key])
  {
    var line := FormatHost(host, key);
    NoNewlineInside(host, key);
    OneLine(line);
    TrimEndStrip(line);
    FormattedParses(host, key);
    hide Trim, FormatHost, StripReturn, HostOk;
    assert [StripReturn(line)][1..] == [];
  }

  /** Loading the appended file is loading the file and then the new line. */
  lemma AppendedLoads(text: string, host: string, key: bytes)
    ensures Load(Appended(text, host, key)) ==
              match Load(text) { case None => None case Some(hosts) => LoadLines(Lines(FormatHost(host,
                  key) + ['\n']), hosts) }
  {
    hide FormatHost, LoadLines, Lines;
    var more := FormatHost(host, key) + ['\n'];
    var base := if NeedsNewline(text) then text + ['\n'] else text;
    assert Appended(text, host, key) == base + more;
    if NeedsNewline(text) {
      FinalNewline(text, map[]);
    }
    LinesAppend(base, more);
    LoadLinesAppend(Lines(base), Lines(more), map[]);
  }

  // -------------------------------------------------------------- what can be loaded at all

  lemma {:induction false} LinesHaveNoNewline(text: string)
    ensures forall line :: line in Lines(text) ==> '\n' !in line
    decreases |text|
  {
    if text != [] {
      var k := Find(text, '\n');
      if k < |text| {
        LinesHaveNoNewline(text[k + 1..]);
        assert '\n' !in StripReturn(text[..k]);
      }
    }
  }

  lemma {:induction false} TrimStartShape(s: string)
    ensures var t := TrimStart(s);
            && (t != [] ==> !IsWhitespace(t[0])) && (forall c :: c in t ==> c in s)
    decreases |s|
  {
    hide IsWhitespace;
    if s != [] && IsWhitespace(s[0]) {
      TrimStartShape(s[1..]);
    }
  }

  lemma {:induction false} TrimEndShape(s: string)
    ensures var t := TrimEnd(s); |t| <= |s| && t == s[..|t|]
    decreases |s|
  {
    hide IsWhitespace;
    if s != [] && IsWhitespace(s[|s| - 1]) {
      TrimEndShape(s[..|s| - 1]);
    }
  }

  lemma LineHostOk(line: string)
    requires '\n' !in line
    ensures var t := Trim(line);
            !IsSkipped(t) && ParseHost(t).Some? ==> HostOk(ParseHost(t).value.0)
  {
    hide ParseKey, IsWhitespace;
    var t := Trim(line);
    TrimStartShape(line);
    TrimEndShape(TrimStart(line));
    if !IsSkipped(t) && ParseHost(t).Some? {
      var host := ParseHost(t).value.0;
      assert host == t[..|host|] && t == TrimStart(line)[..|t|];
      assert host[0] == t[0] && t[0] == TrimStart(line)[0];
      assert forall c :: c in host ==> c in t;
      assert forall c :: c in t ==> c in TrimStart(line);
    }
  }

  /** Every host that a file loads is one that a line can begin with. */
  lemma {:induction false} LoadedHostsAreOk(lines: seq<string>, hosts: Hosts)
    requires forall line :: line in lines ==> '\n' !in line
    requires forall host :: host in hosts ==> HostOk(host)
    ensures var r := LoadLines(lines, hosts);
            r.Some? ==> forall host :: host in r.value ==> HostOk(host)
    decreases |lines|
  {
    hide HostOk, Trim, ParseHost;
    if lines != [] {
      LineHostOk(lines[0]);
      var next := LoadLine(Trim(lines[0]), hosts);
      if next.Some? {
        LoadedHostsAreOk(lines[1..], next.value);
      }
    }
  }

  // --------------------------------------------------------------------------- the result

  /** For any file that loads, with or without a final newline: appending an entry makes
      it load to that map and the entry if and only if the host is new and one that a line
      can begin with, and the key is not empty. */
  lemma AppendExactly(text: string, hosts: Hosts, host: string, key: bytes)
    requires Load(text) == Some(hosts)
    ensures Load(Appended(text, host, key)) == Some(hosts[host := key]) <==>
            HostOk(host) && host !in hosts && key != []
  {
    AppendedLoads(text, host, key);
    if HostOk(host) {
      EntryLoads(host, key, hosts);
    } else {
      var all := Appended(text, host, key);
      LinesHaveNoNewline(all);
      LoadedHostsAreOk(Lines(all), map[]);
      assert host in hosts[host := key];
    }
  }

  /** An empty key leaves a file that no longer loads, whatever it held. */
  lemma EmptyKeyBreaksTheFile(text: string, host: string)
    requires HostOk(host)
    ensures Load(Appended(text, host, [])) == None
  {
    AppendedLoads(text, host, []);
    if Load(text).Some? {
      EntryLoads(host, [], Load(text).value);
    }
  }

  datatype Entry = Entry(host: string, key: bytes)

  function AppendedAll(text: string, entries: seq<Entry>): string
    decreases |entries|
  {
    if entries == [] then text
    else AppendedAll(Appended(text, entries[0].host, entries[0].key), entries[1..])
  }

  function WithAll(hosts: Hosts, entries: seq<Entry>): Hosts
    decreases |entries|
  {
    if entries == [] then hosts else WithAll(hosts[entries[0].host := entries[0].key], entries[1..])
  }

  /** No run of such appends makes a file unloadable or loses an entry. */
  lemma {:induction false} AppendsAccumulate(text: string, hosts: Hosts, entries: seq<Entry>)
    requires Load(text) == Some(hosts)
    requires forall e :: e in entries ==> HostOk(e.host) && e.host !in hosts && e.key != []
    requires forall i, j :: 0 <= i < j < |entries| ==> entries[i].host != entries[j].host
    ensures Load(AppendedAll(text, entries)) == Some(WithAll(hosts, entries))
    ensures forall h :: h in hosts ==> h in WithAll(hosts, entries) && WithAll(hosts, entries)[h] == hosts[h]
    ensures forall e :: e in entries ==> e.host in WithAll(hosts, entries) && WithAll(hosts, entries)[e.host] == e.key
    decreases |entries|
  {
    hide HostOk, Load, Appended;
    if entries != [] {
      var e, rest := entries[0], entries[1..];
      AppendExactly(text, hosts, e.host, e.key);
      forall f | f in rest ensures f.host != e.host && f in entries {
        var i :| 0 <= i < |rest| && rest[i] == f;
        assert entries[i + 1] == f;
      }
      AppendsAccumulate(Appended(text, e.host, e.key), hosts[e.host := e.key], rest);
    }
  }
}
