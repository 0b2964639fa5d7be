/** The signers and verifiers of src/lib.rs over ideal signatures: the signature library
    is a table of the triples (key, message, signature) that it would accept. */
module Signatures {
  import opened Bytes
  import opened Wrappers

  const ED25519_SIGNATURE_LEN := 64
  const ED25519_PUBLIC_KEY_LEN := 32
  const ML_DSA_44_SIGNATURE_LEN := 2420
  const CONN_PUBLIC_KEY_VERSION: byte := 1
  /** One hour, in the nanoseconds that clock readings are counted in. */
  const MAX_CONNECTION_IDLE := 3_600_000_000_000

  datatype Algorithm = MlDsa44 | Ed25519

  datatype Key = Key(algorithm: Algorithm, public: bytes)

  datatype Triple = Triple(key: Key, message: bytes, signature: bytes)

  type Table = set<Triple>

  // ------------------------------------------------------- long-term ConnSign keys

  /** The two public keys of a ConnSign key; the ML-DSA one in its DER form. */
  datatype ConnKey = ConnKey(mlDsa: bytes, ed25519: Bytes32)

  function EncodeConnPublicKey(key: ConnKey): bytes {
    [CONN_PUBLIC_KEY_VERSION] + key.mlDsa + key.ed25519
  }

  function DecodeConnPublicKey(data: bytes): Option<ConnKey> {
    if |data| < 1 + 1 + ED25519_PUBLIC_KEY_LEN || data[0] != CONN_PUBLIC_KEY_VERSION then None
    else
      var split := |data| - ED25519_PUBLIC_KEY_LEN;
      Some(ConnKey(data[1..split], data[split..]))
  }

  lemma ConnPublicKeyRoundTrip(key: ConnKey, data: bytes)
    ensures key.mlDsa != [] ==> DecodeConnPublicKey(EncodeConnPublicKey(key)) == Some(key)
    ensures DecodeConnPublicKey(data) == Some(key) ==> EncodeConnPublicKey(key) == data
  {
    var e := EncodeConnPublicKey(key);
    assert e[1..1 + |key.mlDsa|] == key.mlDsa && e[1 + |key.mlDsa|..] == key.ed25519;
  }

  /** The keys that signatures of this ConnSign key are made with. */
  function Components(key: ConnKey): (r: set<Key>) {
    {Key(MlDsa44, key.mlDsa), Key(Ed25519, key.ed25519)}
  }

  function ConnSignatureLen(insecure: bool): nat {
    if insecure then ED25519_SIGNATURE_LEN else ML_DSA_44_SIGNATURE_LEN + ED25519_SIGNATURE_LEN
  }

  datatype ConnVerify = ConnVerify(bundle: bytes, insecure: bool) {
    function Verify(table: Table, data: bytes): Option<bytes> {
      match DecodeConnPublicKey(bundle)
      case None => None
      case Some(key) =>
        var total := ConnSignatureLen(insecure);
        if |data| < total then None
        else
          var sig, msg := data[..total], data[total..];
          if insecure then
            if Triple(Key(Ed25519, key.ed25519), msg, sig) in table then Some(msg) else None
          else
            var mlDsaSig := sig[..ML_DSA_44_SIGNATURE_LEN];
            var ed25519Sig := sig[ML_DSA_44_SIGNATURE_LEN..];
            if Triple(Key(MlDsa44, key.mlDsa), msg, mlDsaSig) !in table then None
            else if Triple(Key(Ed25519, key.ed25519), msg, ed25519Sig) !in table then None
            else Some(msg)
    }

    predicate VerifyDetached(table: Table, signature: bytes, data: bytes) {
      Verify(table, signature + data).Some?
    }

    /** `signature || data` against `prefix || data`. */
    function VerifyPrefixed(table: Table, prefix: bytes, data: bytes): Option<bytes> {
      var total := ConnSignatureLen(insecure);
      if |data| < total then None
      else if Verify(table, data[..total] + prefix + data[total..]).None? then None
      else Some(data[total..])
    }

    /** Every component signature that the mode calls for verifies the same message. */
    predicate Endorsed(table: Table, signature: bytes, message: bytes) {
      && |signature| == ConnSignatureLen(insecure)
      && DecodeConnPublicKey(bundle).Some?
      && forall t :: t in ComponentTriples(DecodeConnPublicKey(bundle).value, insecure, message, signature)
                 ==> t in table
    }
  }

  /** What the library accepts once it has made `signature` over `message`. */
  function ComponentTriples(key: ConnKey, insecure: bool, message: bytes, signature: bytes): set<Triple>
    requires |signature| == ConnSignatureLen(insecure)
  {
    if insecure then {Triple(Key(Ed25519, key.ed25519), message, signature)}
    else
      {Triple(Key(MlDsa44, key.mlDsa), message, signature[..ML_DSA_44_SIGNATURE_LEN]),
       Triple(Key(Ed25519, key.ed25519), message, signature[ML_DSA_44_SIGNATURE_LEN..])}
  }

  lemma VerifyMeansEndorsed(v: ConnVerify, table: Table, signature: bytes, message: bytes)
    requires |signature| == ConnSignatureLen(v.insecure)
    ensures v.Verify(table, signature + message) ==
              if v.Endorsed(table, signature, message) then Some(message) else None
  {
    var data, total := signature + message, |signature|;
    assert data[..total] == signature && data[total..] == message;
    if DecodeConnPublicKey(v.bundle).Some? {
      var key := DecodeConnPublicKey(v.bundle).value;
      var triples := ComponentTriples(key, v.insecure, message, signature);
      if v.insecure {
        assert Triple(Key(Ed25519, key.ed25519), message, signature) in triples;
      } else {
        assert Triple(Key(MlDsa44, key.mlDsa), message, signature[..ML_DSA_44_SIGNATURE_LEN]) in triples;
        assert Triple(Key(Ed25519, key.ed25519), message, signature[ML_DSA_44_SIGNATURE_LEN..]) in triples;
      }
    }
  }

  /** The three forms of verification succeed together, exactly when the key bundle
      decodes and every component signature of the mode verifies the same message. */
  lemma VerificationFormsAgree(v: ConnVerify, table: Table, signature: bytes, prefix: bytes, message: bytes)
    requires |signature| == ConnSignatureLen(v.insecure)
    ensures var endorsed := v.Endorsed(table, signature, prefix + message);
            && (v.VerifyDetached(table, signature, prefix + message) <==> endorsed)
            && v.VerifyPrefixed(table, prefix, signature + message)
               == (if endorsed then Some(message) else None)
            && v.Verify(table, signature + prefix + message)
               == (if endorsed then Some(prefix + message) else None)
  {
    hide ConnVerify.Verify, ConnVerify.Endorsed;
    var data := signature + message;
    assert data[..|signature|] == signature && data[|signature|..] == message;
    assert signature + prefix + message == signature + (prefix + message);
    VerifyMeansEndorsed(v, table, signature, prefix + message);
  }

  /** A ConnSign signer: its public key and mode. The component signatures are what the
      library returns for the message at hand. */
  datatype ConnSign = ConnSign(key: ConnKey, insecure: bool) {
    function Signature(mlDsaSig: bytes, ed25519Sig: bytes): bytes {
      if insecure then ed25519Sig else mlDsaSig + ed25519Sig
    }

    function Sign(signature: bytes, data: bytes): bytes { signature + data }

    function PublicKeyBytes(): bytes { EncodeConnPublicKey(key) }

    function PeerVerifier(bundle: bytes): ConnVerify { ConnVerify(bundle, insecure) }
  }

  /** `sign`, `sign_prefixed` and `sign_detached` satisfy their counterparts: once the
      library has made both component signatures over prefix || data, all forms accept. */
  lemma SignaturesVerify(signer: ConnSign, table: Table, mlDsaSig: bytes, ed25519Sig: bytes, prefix: bytes, data: bytes)
    requires signer.key.mlDsa != []
    requires |mlDsaSig| == ML_DSA_44_SIGNATURE_LEN && |ed25519Sig| == ED25519_SIGNATURE_LEN
    requires Triple(Key(MlDsa44, signer.key.mlDsa), prefix + data, mlDsaSig) in table
    requires Triple(Key(Ed25519, signer.key.ed25519), prefix + data, ed25519Sig) in table
    ensures var v := signer.PeerVerifier(signer.PublicKeyBytes());
            var signature := signer.Signature(mlDsaSig, ed25519Sig);
            && v.VerifyDetached(table, signature, prefix + data)
            && v.VerifyPrefixed(table, prefix, signature + data) == Some(data)
            && v.Verify(table, signer.Sign(signature, prefix + data)) == Some(prefix + data)
  {
    var v := signer.PeerVerifier(signer.PublicKeyBytes());
    var signature := signer.Signature(mlDsaSig, ed25519Sig);
    ConnPublicKeyRoundTrip(signer.key, []);
    if !signer.insecure {
      assert signature[..ML_DSA_44_SIGNATURE_LEN] == mlDsaSig;
      assert signature[ML_DSA_44_SIGNATURE_LEN..] == ed25519Sig;
    }
    assert v.Endorsed(table, signature, prefix + data);
    hide ConnVerify.Verify, ConnVerify.Endorsed;
    VerificationFormsAgree(v, table, signature, prefix, data);
    assert signature + prefix + data == signature + (prefix + data);
  }

  // ------------------------------------------------------ per-connection packet keys

  /** The implicit counter, then the payload. */
  function PacketSignatureInput(counter: u64, data: bytes): (input: bytes)
    ensures |input| == 8 + |data|
  {
    Be64(counter) + data
  }

  lemma PacketSignatureInputInjective(m: u64, x: bytes, n: u64, y: bytes)
    requires PacketSignatureInput(m, x) == PacketSignatureInput(n, y)
    ensures m == n && x == y
  {
    var s := PacketSignatureInput(m, x);
    assert s[..8] == Be64(m) && s[..8] == Be64(n) && s[8..] == x && s[8..] == y;
    Be64Injective(m, n);
  }

  /** `counter + 1` in 64 bits; the hypothesis that it never wraps is stated where used. */
  function NextCounter(counter: u64): u64 {
    (counter + 1) % 0x1_0000_0000_0000_0000
  }

  class PacketSign {
    const publicKey: Bytes32
    var signCounter: u64

    constructor (publicKey: Bytes32)
      ensures this.publicKey == publicKey && signCounter == 0
    {
      this.publicKey, signCounter := publicKey, 0;
    }

    /** `library` is the signature library, which this key is loaded into. */
    method Sign(data: bytes, library: bytes -> bytes) returns (signed: bytes)
      modifies this`signCounter
      ensures signed == library(PacketSignatureInput(old(signCounter), data)) + data
      ensures signCounter == NextCounter(old(signCounter))
    {
      var counter := signCounter;
      var input := PacketSignatureInput(counter, data);
      signed := library(input);
      signed := signed + data;
      signCounter := NextCounter(counter);
    }
  }

  datatype Verifier = Verifier(publicKey: Bytes32, counter: u64, lastSuccess: nat)

  datatype Verdict = Verdict(message: Option<bytes>, verifier: Verifier)

  /** `Instant::elapsed` saturates at zero. */
  function Elapsed(since: nat, now: nat): nat { if now < since then 0 else now - since }

  /** `checkedAt` is the clock at the idle check, `doneAt` after the signature check. */
  function VerifyPacket(v: Verifier, table: Table, data: bytes, checkedAt: nat, doneAt: nat): Verdict {
    if |data| < ED25519_SIGNATURE_LEN then Verdict(None, v)
    else if Elapsed(v.lastSuccess, checkedAt) > MAX_CONNECTION_IDLE then Verdict(None, v)
    else
      var sig, msg := data[..ED25519_SIGNATURE_LEN], data[ED25519_SIGNATURE_LEN..];
      if Triple(Key(Ed25519, v.publicKey), PacketSignatureInput(v.counter, msg), sig) in table then
        Verdict(Some(msg), Verifier(v.publicKey, NextCounter(v.counter), doneAt))
      else
        Verdict(None, v)
  }

  class PacketVerify {
    var lastSuccess: nat
    const publicKey: Bytes32
    var verifyCounter: u64

    constructor (publicKey: Bytes32, now: nat)
      ensures this.publicKey == publicKey && State() == Verifier(publicKey, 0, now)
    {
      this.publicKey, lastSuccess, verifyCounter := publicKey, now, 0;
    }

    function State(): Verifier
      reads this
    {
      Verifier(publicKey, verifyCounter, lastSuccess)
    }

    method Verify(table: Table, data: bytes, checkedAt: nat, doneAt: nat) returns (message: Option<bytes>)
      modifies this`lastSuccess, this`verifyCounter
      ensures Verdict(message, State()) == VerifyPacket(old(State()), table, data, checkedAt, doneAt)
    {
      if |data| < ED25519_SIGNATURE_LEN {
        return None;
      }
      if Elapsed(lastSuccess, checkedAt) > MAX_CONNECTION_IDLE {
        return None;
      }
      var sig, msg := data[..ED25519_SIGNATURE_LEN], data[ED25519_SIGNATURE_LEN..];
      var counter := verifyCounter;
      var input := PacketSignatureInput(counter, msg);
      if Triple(Key(Ed25519, publicKey), input, sig) in table {
        verifyCounter := NextCounter(counter);
        lastSuccess := doneAt;
        return Some(msg);
      }
      return None;
    }
  }
}
