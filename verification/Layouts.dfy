/** The wire and signed forms byte by byte, with every constant and place written out. */
module Layouts {
  import opened Bytes
  import opened Wrappers
  import opened PacketLaws
  import opened Packets
  import opened Signatures
  import Hdlc

  // -------------------------------------------------------------------------- numbers

  lemma HalfValue(b: byte)
    ensures b as int == 2 * (HalfByte(b) as int) + (if OddByte(b) then 1 else 0)
  {
    HalfAsInt(b);
    OddAsInt(b);
  }

  lemma HalfAsInt(b: byte)
    ensures HalfByte(b) as int == (b as int) / 2
  {
  }

  lemma OddAsInt(b: byte)
    ensures OddByte(b) <==> (b as int) % 2 == 1
  {
  }

  lemma {:induction false} ReadValue(b: byte, k: nat)
    requires k <= 8 && Fits(b, k)
    ensures Read(b, k) == b as int
    decreases k
  {
    hide HalfByte, OddByte, Fits;
    if k == 0 {
      FitsNone(b);
    } else {
      FitsHalf(b, k - 1);
      ReadValue(HalfByte(b), k - 1);
      HalfValue(b);
    }
  }

  lemma ByteValue(b: byte)
    ensures IntOf(b) == b as int
  {
    hide Read, Fits;
    FitsNone(b);
    ReadValue(b, 8);
  }

  /** A digit of `n` to the base 256, by its weight. */
  function Digit(n: nat, weight: nat): nat
    requires weight > 0
  {
    n / weight % 256
  }

  lemma NextDigit(n: nat, weight: nat)
    requires weight > 0
    ensures Digit(n / 256, weight) == Digit(n, 256 * weight)
  {
    var q := n / 256;
    var u, v := q / weight, q % weight;
    assert q == weight * u + v && n == 256 * q + n % 256;
    assert n == (256 * weight) * u + (256 * v + n % 256);
    assert 256 * v + n % 256 < 256 * weight;
    Quotient(n, 256 * weight, u, 256 * v + n % 256);
  }

  lemma Quotient(n: nat, d: nat, u: nat, r: nat)
    requires n == d * u + r && r < d
    ensures n / d == u
  {
    var q, m := n / d, n % d;
    assert n == d * q + m;
    Distributes(d, u, q);
    if q < u {
      AtLeast(d, u - q);
    } else if q > u {
      Distributes(d, q, u);
      AtLeast(d, q - u);
    }
  }

  lemma Distributes(d: nat, u: nat, q: nat)
    ensures d * (u - q) == d * u - d * q
  {
  }

  lemma AtLeast(d: nat, k: nat)
    requires k >= 1
    ensures d * k >= d
  {
  }

  lemma {:induction false} DigitAt(n: nat, k: nat, i: nat)
    requires i < k
    ensures BigEndian(n, k)[i] as int == Digit(n, Pow256(k - 1 - i))
    decreases k
  {
    hide ByteOf, Digit, Pow256;
    if i == k - 1 {
      IntRoundTrip(n % 256);
      ByteValue(ByteOf(n % 256));
      OnesDigit(n);
    } else {
      DigitAt(n / 256, k - 1, i);
      NextDigit(n, Pow256(k - 2 - i));
      NextPower(k - 2 - i);
    }
  }

  lemma OnesDigit(n: nat)
    ensures Pow256(0) == 1 && Digit(n, 1) == n % 256
  {
  }

  lemma NextPower(k: nat)
    ensures Pow256(k + 1) == 256 * Pow256(k)
  {
  }

  /** The eight bytes of a number, most significant first. */
  predicate SpellsU64(s: bytes, n: u64) {
    && |s| == 8
    && s[0] as int == n / 0x100_0000_0000_0000 % 256 && s[1] as int == n / 0x1_0000_0000_0000 % 256
    && s[2] as int == n / 0x100_0000_0000 % 256 && s[3] as int == n / 0x1_0000_0000 % 256
    && s[4] as int == n / 0x100_0000 % 256 && s[5] as int == n / 0x1_0000 % 256
    && s[6] as int == n / 0x100 % 256 && s[7] as int == n % 256
  }

  lemma Powers()
    ensures Pow256(0) == 1 && Pow256(1) == 0x100 && Pow256(2) == 0x1_0000 && Pow256(3) == 0x100_0000
    ensures Pow256(4) == 0x1_0000_0000 && Pow256(5) == 0x100_0000_0000 && Pow256(6) == 0x1_0000_0000_0000
    ensures Pow256(7) == 0x100_0000_0000_0000
  {
  }

  lemma ByteOfU64(n: u64, i: nat, weight: nat)
    requires i < 8 && weight == Pow256(7 - i)
    ensures Be64(n)[i] as int == n / weight % 256
  {
    hide Pow256, BigEndian;
    DigitAt(n, 8, i);
  }

  lemma Be64Layout(n: u64)
    ensures SpellsU64(Be64(n), n)
  {
    hide Pow256, BigEndian, Be64;
    Powers();
    ByteOfU64(n, 0, 0x100_0000_0000_0000);
    ByteOfU64(n, 1, 0x1_0000_0000_0000);
    ByteOfU64(n, 2, 0x100_0000_0000);
    ByteOfU64(n, 3, 0x1_0000_0000);
    ByteOfU64(n, 4, 0x100_0000);
    ByteOfU64(n, 5, 0x1_0000);
    ByteOfU64(n, 6, 0x100);
    ByteOfU64(n, 7, 1);
  }

  // --------------------------------------------------------------------- signed messages

  /** What a packet signature covers: the counter in eight bytes, then the payload. */
  lemma PacketInputLayout(counter: u64, data: bytes)
    ensures var input := PacketSignatureInput(counter, data);
            |input| == 8 + |data| && SpellsU64(input[..8], counter) && input[8..] == data
  {
    hide Be64, SpellsU64;
    Be64Layout(counter);
    assert PacketSignatureInput(counter, data)[..8] == Be64(counter);
  }

  /** What a ClientHello signature covers: the server's challenge, then the hello. */
  lemma ClientInputLayout(serverUnique: u64, h: ClientHello)
    ensures var input := ClientHelloInput(serverUnique, h);
            && |input| == 80 && SpellsU64(input[..8], serverUnique) && SpellsU64(input[8..16], h.unique)
            && input[16..48] == h.connDigest && input[48..] == h.packetKey
  {
    hide Be64, SpellsU64;
    Be64Layout(serverUnique);
    Be64Layout(h.unique);
    var input := ClientHelloInput(serverUnique, h);
    assert input == Be64(serverUnique) + Be64(h.unique) + h.connDigest + h.packetKey;
    assert input[..8] == Be64(serverUnique) && input[8..16] == Be64(h.unique);
  }

  /** What ServerComplete covers: both wires as they went over the stream. */
  lemma TranscriptLayout(server: bytes, client: bytes)
    ensures var t := Transcript(server, client);
            |t| == |server| + |client| && t[..|server|] == server && t[|server|..] == client
  {
  }

  /** A signature of the mode with both components: 2420 bytes of ML-DSA-44 and then 64 of
      Ed25519, over the same message; of the other mode: 64 of Ed25519. */
  lemma EndorsedExactly(v: ConnVerify, table: Table, signature: bytes, message: bytes)
    ensures v.Endorsed(table, signature, message) <==>
            match DecodeConnPublicKey(v.bundle)
            case None => false
            case Some(key) =>
              if v.insecure then |signature| == 64 && Triple(Key(Ed25519, key.ed25519), message, signature) in table
              else
                && |signature| == 2484
                && Triple(Key(MlDsa44, key.mlDsa), message, signature[..2420]) in table
                && Triple(Key(Ed25519, key.ed25519), message, signature[2420..]) in table
  {
    hide DecodeConnPublicKey;
    if DecodeConnPublicKey(v.bundle).Some? && |signature| == ConnSignatureLen(v.insecure) {
      var key := DecodeConnPublicKey(v.bundle).value;
      var triples := ComponentTriples(key, v.insecure, message, signature);
      if v.insecure {
        assert Triple(Key(Ed25519, key.ed25519), message, signature) in triples;
      } else {
        assert Triple(Key(MlDsa44, key.mlDsa), message, signature[..2420]) in triples;
        assert Triple(Key(Ed25519, key.ed25519), message, signature[2420..]) in triples;
      }
    }
  }

  /** The three forms on any bytes at all: a signature of the mode's length has to be there,
      and to endorse what follows it, with the prefix in between if there is one. */
  lemma VerifyExactly(v: ConnVerify, table: Table, prefix: bytes, data: bytes)
    ensures var n := ConnSignatureLen(v.insecure);
            && v.Verify(table, data) ==
                 (if |data| >= n && v.Endorsed(table, data[..n], data[n..]) then Some(data[n..]) else None)
            && v.VerifyPrefixed(table, prefix, data) ==
                 (if |data| >= n && v.Endorsed(table, data[..n], prefix + data[n..]) then Some(data[n..]) else None)
  {
    var n := ConnSignatureLen(v.insecure);
    if |data| >= n {
      assert data == data[..n] + data[n..];
      VerificationFormsAgree(v, table, data[..n], [], data[n..]);
      VerificationFormsAgree(v, table, data[..n], prefix, data[n..]);
      assert data[..n] + [] + data[n..] == data && [] + data[n..] == data[n..];
    }
    hide ConnVerify.Endorsed;
  }

  lemma DetachedExactly(v: ConnVerify, table: Table, signature: bytes, data: bytes)
    ensures var n, whole := ConnSignatureLen(v.insecure), signature + data;
            v.VerifyDetached(table, signature, data) <==>
              |whole| >= n && v.Endorsed(table, whole[..n], whole[n..])
  {
    hide ConnVerify.Verify, ConnVerify.Endorsed;
    VerifyExactly(v, table, [], signature + data);
  }

  /** A key bundle: a version, the ML-DSA key and then 32 bytes of Ed25519. */
  lemma BundleLayout(key: ConnKey)
    ensures var b := EncodeConnPublicKey(key);
            && |b| == 33 + |key.mlDsa| && b[0] == 0x01
            && b[1..|b| - 32] == key.mlDsa && b[|b| - 32..] == key.ed25519
    ensures key.mlDsa != [] ==> DecodeConnPublicKey(EncodeConnPublicKey(key)) == Some(key)
  {
    ConnPublicKeyRoundTrip(key, []);
  }

  // --------------------------------------------------------------------------- the wires

  /** Type 0, "AXSH", version 0, the challenge, the digest, the packet key. */
  lemma ServerHelloLayout(h: ServerHello)
    ensures var w := ServerHelloWire(h);
            && |w| == 78 && w[0] == 0x00 && w[1] == 0x41 && w[2] == 0x58 && w[3] == 0x53 && w[4] == 0x48
            && w[5] == 0x00 && SpellsU64(w[6..14], h.unique) && w[14..46] == h.connDigest && w[46..] == h.packetKey
  {
    hide Be64, SpellsU64;
    Be64Layout(h.unique);
    var w := ServerHelloWire(h);
    assert w == [0x00, 0x41, 0x58, 0x53, 0x48, 0x00] + Be64(h.unique) + h.connDigest + h.packetKey;
    assert w[6..14] == Be64(h.unique);
  }

  /** Type 3, the signature, the challenge, the digest, the packet key. */
  lemma ClientHelloLayout(h: ClientHello, signature: bytes)
    ensures var w, n := ClientHelloWire(h, signature), 1 + |signature|;
            && |w| == n + 72 && w[0] == 0x03 && w[1..n] == signature && SpellsU64(w[n..n + 8], h.unique)
            && w[n + 8..n + 40] == h.connDigest && w[n + 40..] == h.packetKey
  {
    hide Be64, SpellsU64;
    Be64Layout(h.unique);
    var w, n := ClientHelloWire(h, signature), 1 + |signature|;
    assert w == [0x03] + signature + Be64(h.unique) + h.connDigest + h.packetKey;
    assert w[n..n + 8] == Be64(h.unique);
  }

  /** The other unsigned kinds. */
  lemma UnsignedLayout(bundle: bytes, signature: bytes)
    ensures SerializeUnsigned(RequestServerPubkey) == Ok([0x01])
    ensures SerializeUnsigned(ServerPubkey(bundle)) == Ok([0x02] + bundle)
    ensures SerializeUnsigned(ServerComplete(signature)) == Ok([0x04] + signature)
    ensures forall p: Packet :: p.ClientHelloPacket? || p.Payload? ==> SerializeUnsigned(p) == Err(NeedsSigner)
  {
  }

  /** Type 5, the signature, the data. */
  lemma PayloadLayout(data: bytes, signature: bytes)
    ensures PayloadWire(data, signature) == [0x05] + signature + data
  {
  }

  /** Which byte is escaped, and as what. */
  lemma StuffingLayout(b: byte)
    ensures Hdlc.StuffByte(b) ==
              if b == 0x7e then [0x7d, 0x5e] else if b == 0x7d then [0x7d, 0x5d] else [b]
    ensures Hdlc.Flip(b) == b ^ 0x20
  {
  }

  /** A ClientHello is serialised around the library's signature over challenge and body; no
      other kind is. */
  lemma ConnSignedExactly(p: Packet, serverUnique: u64, library: bytes -> bytes)
    ensures SerializeConnSigned(p, serverUnique, library) ==
              if p.ClientHelloPacket?
              then Ok(ClientHelloWire(p.clientHello, library(ClientHelloInput(serverUnique, p.clientHello))))
              else Err(WrongSigner)
  {
    hide ClientHelloInput;
  }

  // ------------------------------------------------------------------- which error it is

  /** The magic and the version of a ServerHello body. */
  predicate MagicOk(body: bytes) { |body| >= 4 && body[..4] == [0x41, 0x58, 0x53, 0x48] }

  predicate VersionOk(body: bytes) { MagicOk(body) && |body| >= 5 && body[4] == 0x00 }

  lemma KeysErrs(data: bytes)
    ensures TakeKeys(data) == Err(Truncated) <==> |data| < 64
    ensures TakeKeys(data) == Err(TrailingBytes) <==> |data| > 64
    ensures TakeKeys(data).Ok? <==> |data| == 64
  {
  }

  lemma ServerHelloErrsExactly(body: bytes)
    ensures var r := DecodeServerHello(body);
            && (r.Ok? <==> VersionOk(body) && |body| == 77)
            && (r == Err(BadMagic) <==> |body| >= 4 && !MagicOk(body))
            && (r == Err(BadVersion) <==> MagicOk(body) && |body| >= 5 && !VersionOk(body))
            && (r == Err(TrailingBytes) <==> VersionOk(body) && |body| > 77)
            && (r == Err(Truncated) <==>
                  |body| < 4 || (MagicOk(body) && |body| < 5) || (VersionOk(body) && |body| < 77))
  {
    hide TakeKeys, FromBe64;
    if |body| >= 13 {
      KeysErrs(body[4..][1..][8..]);
    }
  }

  lemma ClientHelloErrsExactly(body: bytes)
    ensures var r := DecodeClientHello(body);
            && (r.Ok? <==> |body| == 72) && (r == Err(Truncated) <==> |body| < 72)
            && (r == Err(TrailingBytes) <==> |body| > 72)
  {
    hide TakeKeys, FromBe64;
    if |body| >= 8 {
      KeysErrs(body[8..]);
    }
  }

  /** Why a wire is no packet, by its type, its length and what the caller brings. */
  lemma DeserializeErrsExactly(data: bytes, keys: Keys, v: Option<Verifier>, table: Table, checkedAt: nat, doneAt: nat)
    ensures var r := Deserialize(data, keys, v, table, checkedAt, doneAt).packet;
            && (r == Err(Empty) <==> data == [])
            && (data != [] ==>
                  var kind, n, signed := data[0], |data| - 1, ConnSignatureLen(keys.insecure);
                  && (r == Err(UnknownType) <==> kind > 0x05)
                  && (r == Err(BadSignatureLength) <==> kind == 0x04 && n != signed)
                  && (r == Err(MissingPacketVerifier) <==> kind == 0x05 && v.None?)
                  && (r == Err(MissingServerUnique) <==> kind == 0x03 && n == signed + 72 && keys.serverUnique.None?)
                  && (r == Err(MissingConnVerifier) <==>
                        kind == 0x03 && n == signed + 72 && keys.serverUnique.Some? && keys.conn.None?)
                  && (kind == 0x00 ==> (r.Ok? <==> VersionOk(data[1..]) && n == 77))
                  && (kind == 0x01 ==> (r == Err(TrailingBytes) <==> n > 0))
                  && (kind == 0x02 ==> r.Ok?)
                  && (kind == 0x03 ==>
                        (r == Err(Truncated) <==> n < signed + 72) && (r == Err(TrailingBytes) <==> n > signed + 72)))
  {
    hide DecodeServerHello, DecodeClientHello, VerifyPacket, ConnVerify.VerifyPrefixed, MagicOk, VersionOk;
    if data != [] {
      var rest, signed := data[1..], ConnSignatureLen(keys.insecure);
      ServerHelloErrsExactly(rest);
      if |rest| >= signed {
        ClientHelloErrsExactly(rest[signed..]);
      }
    }
  }
}
