/** The digest in a hello and the key it is looked up by: what a server accepts, and when
    the accepted key has the digest that was claimed. */
module DigestCheck {
  import opened Bytes
  import opened Wrappers
  import opened Handshake
  import opened PacketLaws
  import opened Signatures
  import opened WorldSteps
  import AuthorizedKeys
  import Hdlc
  import KnownHosts
  import Packets

  /** Exactly when a server accepts a hello `h` under a signature, in whatever frame it
      comes: the digest is one that it has a key for, whatever key that is, the key endorses
      this hello for this challenge, and the library signs the transcript. The digest of the
      key is not looked at. */
  lemma AcceptsExactly(cfg: ServerConfig, phase: ServerPhase, h: Packets.ClientHello, signature: bytes, frame: bytes,
      table: Table, a: Answers)
    requires phase.WantClient? && |signature| == ConnSignatureLen(cfg.sign.insecure)
    requires Hdlc.Decoded(frame) == Ok(ClientHelloWire(h, signature))
    ensures var wire := ClientHelloWire(h, signature);
            var r := ServerStep(cfg, phase, frame, table, a);
            var transcript := Transcript(ServerHelloWire(phase.hello), wire);
            if && h.connDigest in cfg.authorized && a.sign(transcript).Some?
               && cfg.sign.PeerVerifier(cfg.authorized[h.connDigest]).Endorsed(
                    table, signature, Packets.ClientHelloInput(phase.hello.unique, h))
            then
              && r.phase == ServerDone(phase.hello, h, cfg.authorized[h.connDigest], wire, a.sign(transcript).value,
                                       a.now)
              && r.reply == Some([0x04] + a.sign(transcript).value)
            else r.phase == ServerRefused && r.reply == None
  {
    hide Hdlc.Decoded, Packets.Deserialize, Packets.PeekClientHello, Packets.ClientHelloInput,
      Packets.EncodeClientHello, Packets.EncodeServerHello, ConnVerify.Endorsed;
    var wire, body := ClientHelloWire(h, signature), Packets.EncodeClientHello(h);
    var bundle := if h.connDigest in cfg.authorized then cfg.authorized[h.connDigest] else [];
    ClientHelloPacketExactly(h, signature, wire, phase.hello.unique, cfg.sign.PeerVerifier(bundle), table, 0, 0);
  }

  /** Every key that can endorse anything is held under its own digest. */
  ghost predicate UsableUnderOwn(authorized: map<Bytes32, bytes>, sha: Hash) {
    forall d :: d in authorized && DecodeConnPublicKey(authorized[d]).Some? ==> sha(authorized[d]) == d
  }

  /** What the documentation has a server check, as of a step: the key of an accepted
      client has the digest that its hello claims. */
  predicate Compared(next: ServerPhase, sha: Hash) {
    next.ServerDone? ==> sha(next.clientBundle) == next.client.connDigest
  }

  /** Whatever frame comes in and whatever the library accepts. */
  ghost predicate AlwaysCompared(cfg: ServerConfig, phase: ServerPhase, a: Answers, sha: Hash)
    requires phase.WantClient?
  {
    forall frame: bytes, table: Table :: Compared(ServerStep(cfg, phase, frame, table, a).phase, sha)
  }

  lemma StepIsCompared(cfg: ServerConfig, phase: ServerPhase, frame: bytes, table: Table, a: Answers, sha: Hash)
    requires phase.WantClient? && UsableUnderOwn(cfg.authorized, sha)
    ensures Compared(ServerStep(cfg, phase, frame, table, a).phase, sha)
  {
    hide ServerStep, Packets.ClientHelloInput, ServerHelloWire;
    ServerStepFacts(cfg, phase, frame, table, a);
  }

  lemma ShortHello(h: Packets.ClientHello, signature: bytes, insecure: bool)
    requires |signature| == ConnSignatureLen(insecure)
    ensures |ClientHelloWire(h, signature)| <= 32765
  {
  }

  /** The failing input: a key held under a digest not its own, and a hello that claims that
      digest and is endorsed by that key. The server accepts it. */
  lemma MismatchIsAccepted(cfg: ServerConfig, phase: ServerPhase, d: Bytes32, unique: u64, packetKey: Bytes32,
      signature: bytes, a: Answers, sha: Hash) returns (frame: bytes, table: Table)
    requires phase.WantClient? && |signature| == ConnSignatureLen(cfg.sign.insecure)
    requires d in cfg.authorized && DecodeConnPublicKey(cfg.authorized[d]).Some? && sha(cfg.authorized[d]) != d
    requires forall message :: a.sign(message).Some?
    ensures var h := Packets.ClientHello(unique, d, packetKey);
            && frame == Hdlc.Encoded(ClientHelloWire(h, signature))
            && cfg.sign.PeerVerifier(cfg.authorized[d]).Endorsed(
                 table, signature, Packets.ClientHelloInput(phase.hello.unique, h))
    ensures var next := ServerStep(cfg, phase, frame, table, a).phase;
            && next.ServerDone? && next.client.connDigest == d && next.clientBundle == cfg.authorized[d]
            && !Compared(next, sha)
  {
    hide ServerStep, Hdlc.Encoded, Packets.ClientHelloInput, ServerHelloWire, ClientHelloWire, DecodeConnPublicKey;
    var h := Packets.ClientHello(unique, d, packetKey);
    var key := DecodeConnPublicKey(cfg.authorized[d]).value;
    frame := Hdlc.Encoded(ClientHelloWire(h, signature));
    table := ComponentTriples(key, cfg.sign.insecure, Packets.ClientHelloInput(phase.hello.unique, h), signature);
    ShortHello(h, signature, cfg.sign.insecure);
    Hdlc.RoundTripBounds(ClientHelloWire(h, signature));
    AcceptsExactly(cfg, phase, h, signature, frame, table, a);
  }

  /** Of a server whose library signs: it accepts only keys with the digest that was claimed
      if and only if each usable key that it was given is held under its own digest. */
  lemma ComparedExactly(cfg: ServerConfig, phase: ServerPhase, a: Answers, sha: Hash)
    requires phase.WantClient? && (forall message :: a.sign(message).Some?)
    ensures AlwaysCompared(cfg, phase, a, sha) <==> UsableUnderOwn(cfg.authorized, sha)
  {
    hide ServerStep, Compared, DecodeConnPublicKey;
    if UsableUnderOwn(cfg.authorized, sha) {
      forall frame: bytes, table: Table ensures Compared(ServerStep(cfg, phase, frame, table, a).phase, sha) {
        StepIsCompared(cfg, phase, frame, table, a, sha);
      }
    } else {
      var d :| d in cfg.authorized && DecodeConnPublicKey(cfg.authorized[d]).Some? && sha(cfg.authorized[d]) != d;
      var signature := Zeros(ConnSignatureLen(cfg.sign.insecure));
      var frame, table := MismatchIsAccepted(cfg, phase, d, 0, Zeros(32), signature, a, sha);
      assert !Compared(ServerStep(cfg, phase, frame, table, a).phase, sha);
    }
  }

  lemma {:induction false} LinesUnderOwn(lines: seq<string>, keys: AuthorizedKeys.Keys, sha: Hash)
    requires AuthorizedKeys.OwnDigests(keys, sha)
    ensures var r := AuthorizedKeys.LoadLines(lines, keys, sha); r.Some? ==> AuthorizedKeys.OwnDigests(r.value, sha)
    decreases |lines|
  {
    hide KnownHosts.ParseKey, KnownHosts.Trim, KnownHosts.IsSkipped;
    if lines != [] {
      var next := AuthorizedKeys.LoadLine(KnownHosts.Trim(lines[0]), keys, sha);
      if next.Some? {
        LinesUnderOwn(lines[1..], next.value, sha);
      }
    }
  }

  /** With keys loaded from a file, the comparison always holds. */
  lemma LoadedKeysAreCompared(contents: string, cfg: ServerConfig, phase: ServerPhase, frame: bytes, table: Table,
      a: Answers, sha: Hash)
    requires AuthorizedKeys.LoadLines(KnownHosts.Lines(contents), map[], sha) == Some(cfg.authorized)
    requires phase.WantClient?
    ensures Compared(ServerStep(cfg, phase, frame, table, a).phase, sha)
  {
    hide ServerStep, Compared, DecodeConnPublicKey, KnownHosts.Lines, AuthorizedKeys.LoadLines;
    LinesUnderOwn(KnownHosts.Lines(contents), map[], sha);
    StepIsCompared(cfg, phase, frame, table, a, sha);
  }
}
