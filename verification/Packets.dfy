/** The packet forms of src/packet.rs and their wire encodings. */
module Packets {
  import opened Bytes
  import opened Wrappers
  import opened Signatures

  const SERVER_HELLO_TYPE: byte := 0
  const REQUEST_SERVER_PUBKEY_TYPE: byte := 1
  const SERVER_PUBKEY_TYPE: byte := 2
  const CLIENT_HELLO_TYPE: byte := 3
  const SERVER_COMPLETE_TYPE: byte := 4
  const PAYLOAD_TYPE: byte := 5
  /** "AXSH". */
  const SERVER_HELLO_MAGIC: bytes := [0x41, 0x58, 0x53, 0x48]
  const SERVER_HELLO_VERSION: byte := 0

  const SERVER_HELLO_WIRE_LEN := 78
  const CLIENT_HELLO_BODY_LEN := 72

  datatype ServerHello = ServerHello(unique: u64, connDigest: Bytes32, packetKey: Bytes32)

  datatype ClientHello = ClientHello(unique: u64, connDigest: Bytes32, packetKey: Bytes32)

  datatype Packet =
    | ServerHelloPacket(serverHello: ServerHello)
    | RequestServerPubkey
    | ServerPubkey(bundle: bytes)
    | ClientHelloPacket(clientHello: ClientHello)
    | ServerComplete(signature: bytes)
    | Payload(data: bytes)

  datatype PacketError =
    | Empty | Truncated | TrailingBytes | BadMagic | BadVersion | UnknownType
    | MissingServerUnique | MissingConnVerifier | MissingPacketVerifier
    | BadSignature | BadSignatureLength | NeedsSigner | WrongSigner

  // ------------------------------------------------------------------------ encoding

  function EncodeServerHello(h: ServerHello): bytes {
    SERVER_HELLO_MAGIC + [SERVER_HELLO_VERSION] + Be64(h.unique) + h.connDigest + h.packetKey
  }

  function EncodeClientHello(h: ClientHello): bytes {
    Be64(h.unique) + h.connDigest + h.packetKey
  }

  function SerializeUnsigned(p: Packet): Result<bytes, PacketError> {
    match p
    case ServerHelloPacket(h) => Ok([SERVER_HELLO_TYPE] + EncodeServerHello(h))
    case RequestServerPubkey => Ok([REQUEST_SERVER_PUBKEY_TYPE])
    case ServerPubkey(bundle) => Ok([SERVER_PUBKEY_TYPE] + bundle)
    case ServerComplete(signature) => Ok([SERVER_COMPLETE_TYPE] + signature)
    case ClientHelloPacket(_) => Err(NeedsSigner)
    case Payload(_) => Err(NeedsSigner)
  }

  /** What a ClientHello signature covers. */
  function ClientHelloInput(serverUnique: u64, h: ClientHello): bytes {
    Be64(serverUnique) + EncodeClientHello(h)
  }

  /** `library` is the signature library, which the ConnSign key is loaded into. */
  function SerializeConnSigned(p: Packet, serverUnique: u64, library: bytes -> bytes): Result<bytes, PacketError> {
    match p
    case ClientHelloPacket(h) =>
      Ok([CLIENT_HELLO_TYPE] + library(ClientHelloInput(serverUnique, h)) + EncodeClientHello(h))
    case _ => Err(WrongSigner)
  }

  function PayloadWire(data: bytes, signature: bytes): bytes {
    [PAYLOAD_TYPE] + (signature + data)
  }

  method SerializePacketSigned(p: Packet, signer: PacketSign, library: bytes -> bytes)
    returns (wire: Result<bytes, PacketError>)
    modifies signer`signCounter
    ensures p.Payload? ==>
              wire == Ok(PayloadWire(p.data, library(PacketSignatureInput(old(signer.signCounter), p.data)))) &&
              signer.signCounter == NextCounter(old(signer.signCounter))
    ensures !p.Payload? ==>
              wire == Err(WrongSigner) && signer.signCounter == old(signer.signCounter)
  {
    match p
    case Payload(data) =>
      var signed := signer.Sign(data, library);
      var out := [PAYLOAD_TYPE];
      out := out + signed;
      wire := Ok(out);
    case _ => wire := Err(WrongSigner);
  }

  // ------------------------------------------------------------------------ decoding

  function TakeU64(data: bytes): Result<(u64, bytes), PacketError> {
    if |data| < 8 then Err(Truncated) else Ok((FromBe64(data[..8]), data[8..]))
  }

  function TakeFixed(data: bytes, n: nat): (r: Result<(bytes, bytes), PacketError>)
    ensures r.Ok? <==> |data| >= n
    ensures r.Ok? ==> |r.value.0| == n && data == r.value.0 + r.value.1
  {
    if |data| < n then Err(Truncated) else Ok((data[..n], data[n..]))
  }

  /** The digest and key that end both hellos. */
  function TakeKeys(data: bytes): Result<(Bytes32, Bytes32), PacketError> {
    match TakeFixed(data, 32)
    case Err(e) => Err(e)
    case Ok((digest, rest)) =>
      match TakeFixed(rest, 32)
      case Err(e) => Err(e)
      case Ok((key, rest)) => if rest != [] then Err(TrailingBytes) else Ok((digest, key))
  }

  function DecodeServerHello(data: bytes): Result<ServerHello, PacketError> {
    match TakeFixed(data, 4)
    case Err(e) => Err(e)
    case Ok((magic, rest)) =>
      if magic != SERVER_HELLO_MAGIC then Err(BadMagic)
      else match TakeFixed(rest, 1)
        case Err(e) => Err(e)
        case Ok((version, rest)) =>
          if version[0] != SERVER_HELLO_VERSION then Err(BadVersion)
          else match TakeU64(rest)
            case Err(e) => Err(e)
            case Ok((unique, rest)) =>
              match TakeKeys(rest)
              case Err(e) => Err(e)
              case Ok((digest, key)) => Ok(ServerHello(unique, digest, key))
  }

  function DecodeClientHello(data: bytes): Result<ClientHello, PacketError> {
    match TakeU64(data)
    case Err(e) => Err(e)
    case Ok((unique, rest)) =>
      match TakeKeys(rest)
      case Err(e) => Err(e)
      case Ok((digest, key)) => Ok(ClientHello(unique, digest, key))
  }

  function DecodeServerComplete(data: bytes, insecure: bool): Result<bytes, PacketError> {
    if |data| != ConnSignatureLen(insecure) then Err(BadSignatureLength) else Ok(data)
  }

  function SignedMessage(data: bytes, signatureLen: nat): Result<bytes, PacketError> {
    if |data| < signatureLen then Err(Truncated) else Ok(data[signatureLen..])
  }

  function PeekType(data: bytes): Result<byte, PacketError> {
    if data == [] then Err(Empty) else Ok(data[0])
  }

  function PeekClientHello(data: bytes, insecure: bool): Result<ClientHello, PacketError> {
    if data == [] then Err(Empty)
    else if data[0] != CLIENT_HELLO_TYPE then Err(UnknownType)
    else match SignedMessage(data[1..], ConnSignatureLen(insecure))
      case Err(e) => Err(e)
      case Ok(body) => DecodeClientHello(body)
  }

  function VerifyConnSigned(data: bytes, serverUnique: u64, v: ConnVerify, table: Table): Result<bytes, PacketError> {
    match v.VerifyPrefixed(table, Be64(serverUnique), data)
    case None => Err(BadSignature)
    case Some(msg) => Ok(msg)
  }

  /** What a caller of `deserialize` supplies besides the wire. */
  datatype Keys = Keys(serverUnique: Option<u64>, conn: Option<ConnVerify>, insecure: bool)

  const NO_KEYS := Keys(None, None, false)

  datatype Parsed = Parsed(packet: Result<Packet, PacketError>, verifier: Option<Verifier>)

  function Deserialize(data: bytes, keys: Keys, verifier: Option<Verifier>, table: Table, checkedAt: nat,
      doneAt: nat): Parsed
  {
    if data == [] then Parsed(Err(Empty), verifier)
    else if data[0] == PAYLOAD_TYPE then
      match verifier
      case None => Parsed(Err(MissingPacketVerifier), verifier)
      case Some(v) =>
        var verdict := VerifyPacket(v, table, data[1..], checkedAt, doneAt);
        match verdict.message
        case None => Parsed(Err(BadSignature), Some(verdict.verifier))
        case Some(msg) => Parsed(Ok(Payload(msg)), Some(verdict.verifier))
    else Parsed(DeserializeHandshake(data, keys, table), verifier)
  }

  /** Every kind of packet but Payload, which alone changes a verifier. */
  function DeserializeHandshake(data: bytes, keys: Keys, table: Table): Result<Packet, PacketError>
    requires data != []
  {
    var kind, rest := data[0], data[1..];
    if kind == SERVER_HELLO_TYPE then
      match DecodeServerHello(rest)
      case Err(e) => Err(e)
      case Ok(h) => Ok(ServerHelloPacket(h))
    else if kind == REQUEST_SERVER_PUBKEY_TYPE then
      if rest != [] then Err(TrailingBytes) else Ok(RequestServerPubkey)
    else if kind == SERVER_PUBKEY_TYPE then Ok(ServerPubkey(rest))
    else if kind == CLIENT_HELLO_TYPE then
      match PeekClientHello(data, keys.insecure)
      case Err(e) => Err(e)
      case Ok(h) =>
        if keys.serverUnique.None? then Err(MissingServerUnique)
        else if keys.conn.None? then Err(MissingConnVerifier)
        else match VerifyConnSigned(rest, keys.serverUnique.value, keys.conn.value, table)
          case Err(e) => Err(e)
          case Ok(_) => Ok(ClientHelloPacket(h))
    else if kind == SERVER_COMPLETE_TYPE then
      match DecodeServerComplete(rest, keys.insecure)
      case Err(e) => Err(e)
      case Ok(sig) => Ok(ServerComplete(sig))
    else Err(UnknownType)
  }

  method DeserializePacket(data: bytes, keys: Keys, verifier: PacketVerify?, table: Table, checkedAt: nat, doneAt: nat)
    returns (packet: Result<Packet, PacketError>)
    modifies if verifier == null then {} else {verifier}
    ensures var before := if verifier == null then None else Some(old(verifier.State()));
            var after := if verifier == null then None else Some(verifier.State());
            Parsed(packet, after) == Deserialize(data, keys, before, table, checkedAt, doneAt)
  {
    if data == [] {
      return Err(Empty);
    }
    if data[0] == PAYLOAD_TYPE {
      if verifier == null {
        return Err(MissingPacketVerifier);
      }
      var message := verifier.Verify(table, data[1..], checkedAt, doneAt);
      match message {
        case None => return Err(BadSignature);
        case Some(msg) => return Ok(Payload(msg));
      }
    }
    packet := DeserializeHandshake(data, keys, table);
  }
}
