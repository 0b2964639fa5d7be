/** Round trips, lengths and unambiguity of the wire forms. */
module PacketLaws {
  import opened Bytes
  import opened Wrappers
  import opened Signatures
  import opened Packets

  // --------------------------------------------------------------------- the hellos

  lemma TakeKeysExactly(data: bytes, digest: Bytes32, key: Bytes32)
    ensures TakeKeys(data) == Ok((digest, key)) <==> data == digest + key
  {
    if |data| == 64 {
      assert data == data[..32] + data[32..];
      assert data[32..][..32] == data[32..] && data[32..][32..] == [];
      if data == digest + key {
        assert data[..32] == digest && data[32..] == key;
      }
    }
  }

  lemma TakeU64Exactly(data: bytes, n: u64, rest: bytes)
    ensures TakeU64(data) == Ok((n, rest)) <==> data == Be64(n) + rest
  {
    if |data| >= 8 {
      assert data == data[..8] + data[8..];
      if data == Be64(n) + rest {
        assert data[..8] == Be64(n) && data[8..] == rest;
        Be64Injective(FromBe64(data[..8]), n);
      }
    }
  }

  /** A hello decodes from its encoding and from nothing else. */
  lemma ClientHelloExactly(data: bytes, h: ClientHello)
    ensures DecodeClientHello(data) == Ok(h) <==> data == EncodeClientHello(h)
  {
    hide Be64, FromBe64;
    var keys := h.connDigest + h.packetKey;
    assert EncodeClientHello(h) == Be64(h.unique) + keys;
    TakeU64Exactly(data, h.unique, keys);
    TakeKeysExactly(keys, h.connDigest, h.packetKey);
    if TakeU64(data).Ok? {
      var (unique, rest) := TakeU64(data).value;
      TakeKeysExactly(rest, h.connDigest, h.packetKey);
    }
  }

  lemma ServerHelloExactly(data: bytes, h: ServerHello)
    ensures DecodeServerHello(data) == Ok(h) <==> data == EncodeServerHello(h)
  {
    hide TakeU64, TakeKeys;
    var keys := h.connDigest + h.packetKey;
    var tail := Be64(h.unique) + keys;
    assert EncodeServerHello(h) == SERVER_HELLO_MAGIC + ([SERVER_HELLO_VERSION] + tail);
    TakeKeysExactly(keys, h.connDigest, h.packetKey);
    if |data| >= 5 {
      assert data == data[..4] + (data[4..][..1] + data[5..]) && data[4..][1..] == data[5..];
      TakeU64Exactly(data[5..], h.unique, keys);
      if data == EncodeServerHello(h) {
        assert data[..4] == SERVER_HELLO_MAGIC && data[4..][..1] == [SERVER_HELLO_VERSION];
        assert data[5..] == tail;
      }
      if TakeU64(data[5..]).Ok? {
        var (unique, rest) := TakeU64(data[5..]).value;
        TakeKeysExactly(rest, h.connDigest, h.packetKey);
        TakeU64Exactly(data[5..], unique, rest);
        if DecodeServerHello(data) == Ok(h) {
          assert data[4..][..1] == [SERVER_HELLO_VERSION];
        }
      }
    }
  }

  // ------------------------------------------------------------- the six packet kinds

  predicate Unsigned(p: Packet) {
    p.ServerHelloPacket? || p.RequestServerPubkey? || p.ServerPubkey? || p.ServerComplete?
  }

  /** For the unsigned kinds, a wire is accepted as `p` if and only if `p` serialises to
      exactly that wire (and a ServerComplete signature has the length of the mode). So
      every accepted wire re-serialises unchanged, and distinct wires give distinct
      packets. */
  lemma UnsignedExactly(p: Packet, wire: bytes, keys: Keys, v: Option<Verifier>, table: Table, checkedAt: nat,
      doneAt: nat)
    requires Unsigned(p)
    ensures Deserialize(wire, keys, v, table, checkedAt, doneAt).packet == Ok(p) <==>
            SerializeUnsigned(p) == Ok(wire) &&
            (p.ServerComplete? ==> |p.signature| == ConnSignatureLen(keys.insecure))
    ensures Deserialize(wire, keys, v, table, checkedAt, doneAt).packet == Ok(p) ==>
            Deserialize(wire, keys, v, table, checkedAt, doneAt).verifier == v
  {
    hide DecodeServerHello, EncodeServerHello, VerifyPacket, PeekClientHello, VerifyConnSigned;
    if wire != [] {
      assert wire == [wire[0]] + wire[1..];
      if p.ServerHelloPacket? {
        ServerHelloExactly(wire[1..], p.serverHello);
      }
      match SerializeUnsigned(p)
      case Ok(w) => assert w == [w[0]] + w[1..];
      case Err(_) =>
    }
  }

  /** A ClientHello is accepted if and only if it is its own serialisation around a
      signature of the mode's length that the key endorses for this server challenge. */
  lemma ClientHelloPacketExactly(h: ClientHello, signature: bytes, wire: bytes, serverUnique: u64, v: ConnVerify,
      table: Table, checkedAt: nat, doneAt: nat)
    requires wire == [CLIENT_HELLO_TYPE] + signature + EncodeClientHello(h)
    requires |signature| == ConnSignatureLen(v.insecure)
    ensures SerializeConnSigned(ClientHelloPacket(h), serverUnique, _ => signature) == Ok(wire)
    ensures var keys := Keys(Some(serverUnique), Some(v), v.insecure);
            var parsed := Deserialize(wire, keys, None, table, checkedAt, doneAt).packet;
            parsed == if v.Endorsed(table, signature, ClientHelloInput(serverUnique, h))
                      then Ok(ClientHelloPacket(h)) else Err(BadSignature)
    ensures PeekClientHello(wire, v.insecure) == Ok(h)
  {
    hide DecodeClientHello, EncodeClientHello, ConnVerify.VerifyPrefixed, ConnVerify.Endorsed;
    var body := EncodeClientHello(h);
    assert wire[1..] == signature + body && wire[1..][|signature|..] == body;
    ClientHelloExactly(body, h);
    VerificationFormsAgree(v, table, signature, Be64(serverUnique), body);
  }

  lemma ClientHelloWireIsCanonical(wire: bytes, h: ClientHello, keys: Keys, table: Table)
    requires wire != []
    requires DeserializeHandshake(wire, keys, table) == Ok(ClientHelloPacket(h))
    ensures keys.serverUnique.Some? && keys.conn.Some?
    ensures var n := ConnSignatureLen(keys.insecure);
            && |wire| == 1 + n + CLIENT_HELLO_BODY_LEN
            && wire == [CLIENT_HELLO_TYPE] + wire[1..1 + n] + EncodeClientHello(h)
            && PeekClientHello(wire, keys.insecure) == Ok(h)
            && (keys.conn.value.insecure == keys.insecure ==>
                  keys.conn.value.Endorsed(table, wire[1..1 + n], ClientHelloInput(keys.serverUnique.value, h)))
  {
    hide DecodeClientHello, DecodeServerHello, ConnVerify.VerifyPrefixed, ConnVerify.Endorsed;
    var n := ConnSignatureLen(keys.insecure);
    var rest := wire[1..];
    assert PeekClientHello(wire, keys.insecure) == Ok(h);
    assert |rest| >= n && DecodeClientHello(rest[n..]) == Ok(h);
    ClientHelloExactly(rest[n..], h);
    var signature := wire[1..1 + n];
    assert rest[n..] == wire[1 + n..] && rest == signature + EncodeClientHello(h);
    assert wire == [wire[0]] + signature + wire[1 + n..];
    if keys.conn.value.insecure == keys.insecure {
      VerificationFormsAgree(keys.conn.value, table, signature, Be64(keys.serverUnique.value), EncodeClientHello(h));
    }
  }

  /** A payload round-trips if and only if the verifier is not idle and stands at the
      counter that the signature was made with. */
  lemma PayloadExactly(data: bytes, signature: bytes, keys: Keys, v: Verifier, table: Table, checkedAt: nat,
      doneAt: nat)
    requires |signature| == ED25519_SIGNATURE_LEN
    ensures var good := Elapsed(v.lastSuccess, checkedAt) <= MAX_CONNECTION_IDLE &&
                        Triple(Key(Ed25519, v.publicKey), PacketSignatureInput(v.counter, data), signature) in table;
            Deserialize(PayloadWire(data, signature), keys, Some(v), table, checkedAt, doneAt)
            == if good
               then Parsed(Ok(Payload(data)), Some(Verifier(v.publicKey, NextCounter(v.counter), doneAt)))
               else Parsed(Err(BadSignature), Some(v))
  {
    hide PacketSignatureInput, NextCounter, Elapsed;
    var signed := signature + data;
    assert PayloadWire(data, signature)[1..] == signed;
    assert signed[..ED25519_SIGNATURE_LEN] == signature && signed[ED25519_SIGNATURE_LEN..] == data;
  }

  // --------------------------------------------------------------- lengths, transcripts

  /** What ServerComplete signs. */
  function Transcript(serverHelloWire: bytes, clientHelloWire: bytes): bytes {
    serverHelloWire + clientHelloWire
  }

  function ServerHelloWire(h: ServerHello): (w: bytes)
    ensures |w| == SERVER_HELLO_WIRE_LEN
    ensures SerializeUnsigned(ServerHelloPacket(h)) == Ok(w)
  {
    [SERVER_HELLO_TYPE] + EncodeServerHello(h)
  }

  function ClientHelloWire(h: ClientHello, signature: bytes): (w: bytes)
    ensures |w| == 1 + |signature| + CLIENT_HELLO_BODY_LEN
  {
    [CLIENT_HELLO_TYPE] + signature + EncodeClientHello(h)
  }

  lemma WireLengths(s: ServerHello, c: ClientHello, serverUnique: u64, signature: bytes, insecure: bool)
    requires |signature| == ConnSignatureLen(insecure)
    ensures |EncodeClientHello(c)| == 72 && |ClientHelloInput(serverUnique, c)| == 80
    ensures |Transcript(ServerHelloWire(s), ClientHelloWire(c, signature))| == if insecure then 215 else 2635
  {
  }

  lemma ClientHelloInputInjective(m: u64, g: ClientHello, n: u64, h: ClientHello)
    requires ClientHelloInput(m, g) == ClientHelloInput(n, h)
    ensures m == n && g == h
  {
    hide Be64;
    var s := ClientHelloInput(m, g);
    assert s[..8] == Be64(m) && s[..8] == Be64(n);
    Be64Injective(m, n);
    assert s[8..] == EncodeClientHello(g) && s[8..] == EncodeClientHello(h);
    ClientHelloExactly(s[8..], g);
    ClientHelloExactly(s[8..], h);
  }

  /** A transcript determines both hellos, the client's signature and the mode: it splits
      at byte 78, and the rest has one length per mode. */
  lemma TranscriptInjective(s: ServerHello, c: ClientHello, sig: bytes, s': ServerHello, c': ClientHello, sig': bytes)
    requires Transcript(ServerHelloWire(s), ClientHelloWire(c, sig))
          == Transcript(ServerHelloWire(s'), ClientHelloWire(c', sig'))
    ensures s == s' && c == c' && sig == sig'
  {
    var t := Transcript(ServerHelloWire(s), ClientHelloWire(c, sig));
    TranscriptParts(s, c, sig);
    TranscriptParts(s', c', sig');
    hide *;
    ServerHelloExactly(t[1..78], s);
    ServerHelloExactly(t[1..78], s');
    ClientHelloExactly(t[|t| - 72..], c);
    ClientHelloExactly(t[|t| - 72..], c');
  }

  lemma TranscriptParts(s: ServerHello, c: ClientHello, sig: bytes)
    ensures var t := Transcript(ServerHelloWire(s), ClientHelloWire(c, sig));
            && |t| == 78 + 1 + |sig| + 72 && t[1..78] == EncodeServerHello(s)
            && t[79..|t| - 72] == sig && t[|t| - 72..] == EncodeClientHello(c)
  {
    hide Be64;
    var t := Transcript(ServerHelloWire(s), ClientHelloWire(c, sig));
    assert |EncodeServerHello(s)| == 77 && |EncodeClientHello(c)| == 72;
    hide EncodeServerHello, EncodeClientHello;
    assert t == [SERVER_HELLO_TYPE] + EncodeServerHello(s) + [CLIENT_HELLO_TYPE] + sig + EncodeClientHello(c);
  }

  /** What a client signs is never what a server signs, in either mode. */
  lemma SignedInputsDisjoint(serverUnique: u64, h: ClientHello, s: ServerHello, c: ClientHello, signature: bytes)
    ensures ClientHelloInput(serverUnique, h) != Transcript(ServerHelloWire(s), ClientHelloWire(c, signature))
  {
    assert |ClientHelloInput(serverUnique, h)| == 80;
  }
}
