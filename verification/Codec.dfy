/**
 The wire format of packet.go as functions: plaintext header, SACK trailer,
 sealing, and the two QUIC-like header forms (sections 17.2.2 and 17.3.1 of
 RFC 9000) with the variable-length integer of section 16.
 */
module Codec {
  import opened Base
  import opened BigEndian
  import opened Compression

  const SYN: byte := 3
  const SYNACK: byte := 4
  const HEADER_SIZE: nat := 12
  const BUFFER_SIZE: nat := 2048
  const NONCE_SIZE: nat := 24
  const OVERHEAD: nat := 16

  datatype Packet = Packet(typ: byte, seqNum: nat, ackNum: nat, flags: byte, payload: Bytes, sack: seq<nat>)

  // ---- flags ------------------------------------------------------------------

  /** FlagSACK, bit 1. */
  predicate HasSack(flags: byte) {
    (flags / 2) % 2 == 1
  }

  /** FlagCompressed, bit 3. */
  predicate IsCompressed(flags: byte) {
    (flags / 8) % 2 == 1
  }

  function WithCompressed(flags: byte): byte {
    if IsCompressed(flags) then flags else flags + 8
  }

  function WithoutCompressed(flags: byte): byte {
    if IsCompressed(flags) then flags - 8 else flags
  }

  lemma CompressedFlagLaws(flags: byte)
    ensures IsCompressed(WithCompressed(flags)) && !IsCompressed(WithoutCompressed(flags))
    ensures WithoutCompressed(WithCompressed(flags)) == WithoutCompressed(flags)
    ensures WithCompressed(WithCompressed(flags)) == WithCompressed(flags)
    ensures HasSack(WithCompressed(flags)) == HasSack(flags) == HasSack(WithoutCompressed(flags))
  {
  }

  // ---- the cipher, as a parameter ---------------------------------------------

  /** Seal and Open; None is an authentication failure. */
  datatype Aead = Aead(seal: (Bytes, Bytes) -> Bytes, unseal: (Bytes, Bytes) -> Option<Bytes>)

  ghost predicate Lawful(a: Aead) {
    forall nonce, p :: |a.seal(nonce, p)| == |p| + OVERHEAD && a.unseal(nonce, a.seal(nonce, p)) == Some(p)
  }

  datatype Config = Config(aead: Aead, dcid: Bytes, scid: Bytes, compression: CompressionConfig)

  ghost predicate Usable(c: Config) {
    && |c.dcid| == 8 && |c.scid| == 8
    && Lawful(c.aead) && Inverse(c.compression.zstd)
  }

  // ---- encoding -----------------------------------------------------------------

  function PutAll32(vs: seq<nat>): Bytes {
    if vs == [] then [] else PutAll32(vs[..|vs| - 1]) + Put32(vs[|vs| - 1])
  }

  function SackTrailer(flags: byte, sack: seq<nat>): Bytes {
    if HasSack(flags) && |sack| > 0 then Put16(|sack|) + PutAll32(sack) else []
  }

  /** pkt.Flags after Encode, which are also the flags on the wire. */
  function EncodedFlags(c: Config, p: Packet): byte {
    if Shrinks(c.compression, p.payload) then WithCompressed(p.flags) else p.flags
  }

  function AfterEncode(c: Config, p: Packet): Packet {
    p.(flags := EncodedFlags(c, p))
  }

  function Header(typ: byte, seqNum: nat, ackNum: nat, bodyLen: nat, flags: byte): Bytes {
    [typ] + Put32(seqNum) + Put32(ackNum) + Put16(bodyLen) + [flags]
  }

  function Plaintext(c: Config, p: Packet): Bytes {
    var body, flags := Body(c.compression, p.payload), EncodedFlags(c, p);
    Header(p.typ, p.seqNum, p.ackNum, |body|, flags) + body + SackTrailer(flags, p.sack)
  }

  function Sealed(c: Config, p: Packet, nonce: Bytes): Bytes {
    nonce + c.aead.seal(nonce, Plaintext(c, p))
  }

  /** encodeVarint: always two bytes, but below 64 the first byte alone is a complete varint. */
  function Varint(v: nat): Bytes {
    if v < 64 then [v, 0]
    else if v < 16384 then Put16(v + 0x4000)
    else Put16(v % 0x4000 + 0x4000)
  }

  predicate IsInitial(typ: byte) {
    typ == SYN || typ == SYNACK
  }

  /** Bytes of the long header up to the length field. */
  function LongPrefix(dcid: Bytes, scid: Bytes): Bytes {
    [0xC0] + Put32(1) + [8] + dcid + [8] + scid + [0]
  }

  function Wire(c: Config, p: Packet, nonce: Bytes): Bytes {
    var enc := Sealed(c, p, nonce);
    if IsInitial(p.typ) then LongPrefix(c.dcid, c.scid) + Varint(1 + |enc|) + [p.seqNum % 256] + enc
    else [0x40] + c.dcid + [p.seqNum % 256] + enc
  }

  /** The length field of a long-header packet: packet number, nonce, ciphertext and tag. */
  function LengthField(c: Config, p: Packet): nat {
    1 + NONCE_SIZE + OVERHEAD + |Plaintext(c, p)|
  }

  // ---- decoding -----------------------------------------------------------------

  datatype Error =
    | TooShort | UnsupportedLongHeader | ShortRead | DcidMismatch | InvalidVarint
    | EncryptedTooShort | DecryptionFailed | HeaderTooShort | LengthMismatch | DecompressionFailed | Panic

  datatype Result<+T> = Ok(value: T) | Err(error: Error)

  /** decodeVarint: value and size; size 0 means that bytes are missing. */
  function ReadVarint(b: Bytes): (nat, nat) {
    if |b| < 1 then (0, 0)
    else if b[0] / 64 == 0 then (b[0] % 64, 1)
    else if b[0] / 64 == 1 then
      if |b| < 2 then (0, 0) else (Get16(b) % 0x4000, 2)
    else if b[0] / 64 == 2 then
      if |b| < 4 then (0, 0) else (Get32(b) % 0x4000_0000, 4)
    else
      if |b| < 8 then (0, 0) else ((Get32(b) * U32 + Get32(b[4..])) % 0x4000_0000_0000_0000, 8)
  }

  /** Where the ciphertext of a long-header datagram starts and how long it is. */
  function LongSpan(dcid: Bytes, wire: Bytes): Result<(nat, nat)>
    requires |wire| >= 12
  {
    if (wire[0] / 16) % 4 != 0 then Err(UnsupportedLongHeader)
    else
      var dcidLen := wire[5] as nat;
      if |wire| < 6 + dcidLen then Err(ShortRead)
      else if dcidLen == 8 && wire[6..14] != dcid then Err(DcidMismatch)
      else if |wire| < 7 + dcidLen then Err(ShortRead)
      else
        var scidAt := 7 + dcidLen;
        var scidLen := wire[scidAt - 1] as nat;
        if |wire| < scidAt + scidLen + 1 then Err(ShortRead)
        else
          var tokenAt := scidAt + scidLen + 1;
          var tokenLen := wire[tokenAt - 1] as nat;
          if |wire| < tokenAt + tokenLen then Err(ShortRead)
          else
            var (length, size) := ReadVarint(wire[tokenAt + tokenLen..]);
            var pnAt := tokenAt + tokenLen + size;
            if size == 0 then Err(InvalidVarint)
            else if |wire| < pnAt + 1 || length == 0 || |wire| < pnAt + length then Err(ShortRead)
            else Ok((pnAt + 1, length - 1))
  }

  /** The encrypted part of a datagram. */
  function EncryptedPart(dcid: Bytes, wire: Bytes): Result<Bytes> {
    if |wire| < 12 then Err(TooShort)
    else if wire[0] >= 0x80 then
      match LongSpan(dcid, wire)
      case Ok((start, length)) => if start + length <= |wire| then Ok(wire[start..start + length]) else Err(ShortRead)
      case Err(e) => Err(e)
    else if wire[1..9] != dcid then Err(DcidMismatch)
    else Ok(wire[10..])
  }

  function Unsealed(c: Config, enc: Bytes): Result<Bytes> {
    if |enc| < NONCE_SIZE + OVERHEAD + HEADER_SIZE then Err(EncryptedTooShort)
    else match c.aead.unseal(enc[..NONCE_SIZE], enc[NONCE_SIZE..])
         case Some(plain) => if |plain| < HEADER_SIZE then Err(HeaderTooShort) else Ok(plain)
         case None => Err(DecryptionFailed)
  }

  function GetAll32(b: Bytes, count: nat): seq<nat>
    requires |b| >= 4 * count
  {
    if count == 0 then [] else GetAll32(b, count - 1) + [Get32(b[4 * (count - 1)..])]
  }

  function ReadSack(flags: byte, trailer: Bytes): seq<nat> {
    if HasSack(flags) && |trailer| >= 2 && |trailer| >= 2 + Get16(trailer) * 4 then
      GetAll32(trailer[2..], Get16(trailer))
    else []
  }

  function Inflated(c: Config, packet: Packet): Result<Packet> {
    match DecompressPayload(c.compression, packet.payload)
    case Data(bytes) => Ok(packet.(payload := bytes))
    case DecodeError => Err(DecompressionFailed)
    case SliceOutOfRange => Err(Panic)
  }

  function Parse(c: Config, plain: Bytes): Result<Packet>
    requires |plain| >= HEADER_SIZE
  {
    var length := Get16(plain[9..]);
    var rest := plain[HEADER_SIZE..];
    if |rest| < length then Err(LengthMismatch)
    else
      var flags := plain[11];
      var packet := Packet(plain[0], Get32(plain[1..]), Get32(plain[5..]), WithoutCompressed(flags),
                           rest[..length], ReadSack(WithoutCompressed(flags), rest[length..]));
      if IsCompressed(flags) then Inflated(c, packet) else Ok(packet)
  }

  function Decode(c: Config, wire: Bytes): Result<Packet> {
    match EncryptedPart(c.dcid, wire)
    case Err(e) => Err(e)
    case Ok(enc) =>
      match Unsealed(c, enc)
      case Err(e) => Err(e)
      case Ok(plain) => Parse(c, plain)
  }
}
