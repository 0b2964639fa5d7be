/** The server's authorized keys: one "kind base64" a line, held under their own digests. */
module AuthorizedKeys {
  import opened Bytes
  import opened Wrappers
  import opened Handshake
  import KnownHosts

  type Keys = map<Bytes32, bytes>

  predicate OwnDigests(keys: Keys, sha: Hash) {
    forall digest :: digest in keys ==> sha(keys[digest]) == digest
  }

  /** One line, already trimmed: a malformed key or a key twice is an error. */
  function LoadLine(line: string, keys: Keys, sha: Hash): Option<Keys> {
    if KnownHosts.IsSkipped(line) then Some(keys)
    else
      match KnownHosts.ParseKey(line)
      case None => None
      case Some(key) => if sha(key) in keys then None else Some(keys[sha(key) := key])
  }

  function LoadLines(lines: seq<string>, keys: Keys, sha: Hash): Option<Keys> {
    if lines == [] then Some(keys)
    else
      match LoadLine(KnownHosts.Trim(lines[0]), keys, sha)
      case None => None
      case Some(next) => LoadLines(lines[1..], next, sha)
  }

  method LoadAuthorizedKeys(contents: string, sha: Hash) returns (r: Option<Keys>)
    ensures r == LoadLines(KnownHosts.Lines(contents), map[], sha)
    ensures r.Some? ==> OwnDigests(r.value, sha)
  {
    var lines, keys: Keys := KnownHosts.Lines(contents), map[];
    for i := 0 to |lines|
      invariant LoadLines(lines[i..], keys, sha) == LoadLines(lines, map[], sha)
      invariant OwnDigests(keys, sha)
    {
      assert lines[i..][1..] == lines[i + 1..];
      var line := KnownHosts.Trim(lines[i]);
      if line == [] || line[0] == '#' {
        continue;
      }
      var key := KnownHosts.ParseKey(line);
      if key.None? {
        return None;
      }
      var digest := sha(key.value);
      if digest in keys {
        return None;
      }
      keys := keys[digest := key.value];
    }
    return Some(keys);
  }
}
