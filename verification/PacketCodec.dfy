/** The codec object of packet.go: buffers filled at a moving offset, a packet whose flags Encode changes. */
module PacketCodecs {
  import opened Base
  import opened BigEndian
  import opened Compression
  import C = Codec

  class MutablePacket {
    var typ: byte
    var seqNum: nat
    var ackNum: nat
    var flags: byte
    var payload: Bytes
    var sack: seq<nat>

    function View(): C.Packet
      reads this
    {
      C.Packet(typ, seqNum, ackNum, flags, payload, sack)
    }

    constructor (p: C.Packet)
      ensures View() == p
    {
      typ, seqNum, ackNum, flags, payload, sack := p.typ, p.seqNum, p.ackNum, p.flags, p.payload, p.sack;
    }
  }

  class PacketCodec {
    const config: C.Config
    var compressor: Compressor?

    ghost predicate Valid()
      reads this
    {
      && (compressor != null ==> compressor.zstd == config.compression.zstd)
      && |config.dcid| == 8 && |config.scid| == 8
    }

    constructor (config: C.Config)
      requires |config.dcid| == 8 && |config.scid| == 8
      ensures Valid() && this.config == config
    {
      this.config := config;
      compressor := null;
    }

    method CompressPayload(data: Bytes) returns (body: Bytes)
      requires Valid()
      modifies this
      ensures Valid() && body == Compression.CompressPayload(config.compression, data)
    {
      if !config.compression.enable || |data| < config.compression.minSize {
        return data;
      }
      if compressor == null {
        compressor := new Compressor(config.compression.zstd);
      }
      var compressed := compressor.Compress(data);
      if compressed.Length >= |data| {
        return data;
      }
      body := compressed[..];
    }

    /**
     `random` is the nonce drawn for this call, None if the random source
     failed; `buf` is the pooled plaintext buffer, whose old contents do not
     matter. The call also fails when the long header's length field cannot
     hold the size. The flag stays set on a packet whose encoding failed.
     */
    method Encode(pkt: MutablePacket, random: Option<Bytes>, buf: array<byte>) returns (wire: Option<array<byte>>)
      requires Valid() && buf.Length == C.BUFFER_SIZE
      requires |C.Plaintext(config, pkt.View())| <= C.BUFFER_SIZE
      modifies this, pkt`flags, buf
      ensures Valid()
      ensures pkt.View() == C.AfterEncode(config, old(pkt.View()))
      ensures wire.Some? <==>
                && random.Some?
                && (C.IsInitial(pkt.typ) ==> 1 + |C.Sealed(config, old(pkt.View()), random.value)| <= 16383)
      ensures wire.Some? ==>
                fresh(wire.value) && wire.value[..] == C.Wire(config, old(pkt.View()), random.value)
    {
      var payloadBytes := pkt.payload;
      if config.compression.enable && |pkt.payload| > 0 {
        payloadBytes := CompressPayload(pkt.payload);
        if |payloadBytes| < |pkt.payload| {
          pkt.flags := C.WithCompressed(pkt.flags);
        }
      }
      assert payloadBytes == Body(config.compression, pkt.payload);
      var plaintext := FillPlaintext(pkt, payloadBytes, buf);
      assert plaintext == C.Plaintext(config, old(pkt.View()));
      if random.None? {
        return None;
      }
      var encPayload := random.value + config.aead.seal(random.value, plaintext);
      if C.IsInitial(pkt.typ) {
        wire := LongHeader(pkt, encPayload);
      } else {
        var datagram := ShortHeader(pkt, encPayload);
        wire := Some(datagram);
      }
    }

    method FillPlaintext(pkt: MutablePacket, body: Bytes, buf: array<byte>) returns (plaintext: Bytes)
      requires buf.Length == C.BUFFER_SIZE
      requires C.HEADER_SIZE + |body| + |C.SackTrailer(pkt.flags, pkt.sack)| <= C.BUFFER_SIZE
      modifies buf
      ensures plaintext ==
                C.Header(pkt.typ, pkt.seqNum, pkt.ackNum, |body|, pkt.flags) + body + C.SackTrailer(pkt.flags, pkt.sack)
    {
      var off := AppendByte(buf, 0, pkt.typ);
      off := Append32(buf, off, pkt.seqNum);
      off := Append32(buf, off, pkt.ackNum);
      off := Append16(buf, off, |body|);
      off := AppendByte(buf, off, pkt.flags);
      assert buf[..off] == C.Header(pkt.typ, pkt.seqNum, pkt.ackNum, |body|, pkt.flags);
      off := AppendBytes(buf, off, body);
      if C.HasSack(pkt.flags) && |pkt.sack| > 0 {
        off := FillSack(pkt.sack, buf, off);
      }
      plaintext := buf[..off];
    }

    method FillSack(sack: seq<nat>, buf: array<byte>, start: nat) returns (end: nat)
      requires start + 2 + |C.PutAll32(sack)| <= buf.Length
      modifies buf
      ensures end <= buf.Length && buf[..end] == old(buf[..start]) + (Put16(|sack|) + C.PutAll32(sack))
    {
      Lengths(sack, |sack|);
      end := Append16(buf, start, |sack|);
      ghost var before := buf[..end];
      var i := 0;
      while i < |sack|
        invariant 0 <= i <= |sack|
        invariant end == start + 2 + 4 * i <= buf.Length
        invariant buf[..end] == before + C.PutAll32(sack[..i])
      {
        Lengths(sack, i + 1);
        assert sack[..i + 1][..i] == sack[..i];
        end := Append32(buf, end, sack[i]);
        i := i + 1;
      }
      assert sack[..i] == sack;
    }

    /** `i` sequence numbers take four bytes each, no more than all of them. */
    lemma {:induction false} Lengths(sack: seq<nat>, i: nat)
      requires i <= |sack|
      ensures |C.PutAll32(sack[..i])| == 4 * i && |C.PutAll32(sack)| == 4 * |sack|
      decreases |sack|, i
    {
      if i > 0 {
        assert sack[..i][..i - 1] == sack[..i - 1];
        Lengths(sack, i - 1);
      }
      if i < |sack| {
        assert sack[..|sack| - 1][..|sack| - 1] == sack[..|sack| - 1];
        Lengths(sack[..|sack| - 1], |sack| - 1);
      } else {
        assert sack[..i] == sack;
      }
    }

    method EncodeVarint(wire: array<byte>, off: nat, v: nat) returns (end: nat)
      requires off + 2 <= wire.Length
      modifies wire
      ensures end == off + 2 && wire[..end] == old(wire[..off]) + C.Varint(v)
    {
      if v < 64 {
        wire[off] := v;
        wire[off + 1] := 0;
        end := off + 2;
      } else if v < 16384 {
        end := Append16(wire, off, v + 0x4000);
      } else {
        end := Append16(wire, off, v % 0x4000 + 0x4000);
      }
    }

    method LongHeader(pkt: MutablePacket, enc: Bytes) returns (datagram: Option<array<byte>>)
      requires Valid()
      ensures datagram.Some? <==> 1 + |enc| <= 16383
      ensures datagram.Some? ==>
                && fresh(datagram.value)
                && datagram.value[..] ==
                     C.LongPrefix(config.dcid, config.scid) + C.Varint(1 + |enc|) + [pkt.seqNum % 256] + enc
    {
      var wire := new byte[27 + |enc|];
      var off := AppendByte(wire, 0, 0xC0);
      off := Append32(wire, off, 1);
      off := AppendByte(wire, off, 8);
      off := AppendBytes(wire, off, config.dcid);
      off := AppendByte(wire, off, 8);
      off := AppendBytes(wire, off, config.scid);
      off := AppendByte(wire, off, 0);
      assert wire[..off] == C.LongPrefix(config.dcid, config.scid);
      var remaining := 1 + |enc|;
      if remaining > 16383 {
        return None;
      }
      off := EncodeVarint(wire, off, remaining);
      off := AppendByte(wire, off, pkt.seqNum % 256);
      off := AppendBytes(wire, off, enc);
      assert wire[..] == wire[..off];
      datagram := Some(wire);
    }

    method ShortHeader(pkt: MutablePacket, enc: Bytes) returns (wire: array<byte>)
      requires Valid()
      ensures fresh(wire) && wire[..] == [0x40] + config.dcid + [pkt.seqNum % 256] + enc
    {
      wire := new byte[10 + |enc|];
      var off := AppendByte(wire, 0, 0x40);
      off := AppendBytes(wire, off, config.dcid);
      off := AppendByte(wire, off, pkt.seqNum % 256);
      off := AppendBytes(wire, off, enc);
      assert wire[..] == wire[..off];
    }

    method Decode(wire: Bytes) returns (r: C.Result<C.Packet>)
      requires Valid()
      ensures r == C.Decode(config, wire)
    {
      if |wire| < 12 {
        return C.Err(C.TooShort);
      }
      var encPayload: Bytes;
      if wire[0] >= 0x80 {
        var span := DecodeLongHeader(wire);
        if span.Err? {
          return C.Err(span.error);
        }
        var (start, length) := span.value;
        if start + length > |wire| {
          return C.Err(C.ShortRead);
        }
        encPayload := wire[start..start + length];
      } else {
        if wire[1..9] != config.dcid {
          return C.Err(C.DcidMismatch);
        }
        encPayload := wire[10..];
      }
      if |encPayload| < C.NONCE_SIZE + C.OVERHEAD + C.HEADER_SIZE {
        return C.Err(C.EncryptedTooShort);
      }
      var plaintext := config.aead.unseal(encPayload[..C.NONCE_SIZE], encPayload[C.NONCE_SIZE..]);
      if plaintext.None? {
        return C.Err(C.DecryptionFailed);
      }
      if |plaintext.value| < C.HEADER_SIZE {
        return C.Err(C.HeaderTooShort);
      }
      r := ParsePlaintext(plaintext.value);
    }

    method DecodeLongHeader(wire: Bytes) returns (r: C.Result<(nat, nat)>)
      requires |wire| >= 12
      ensures r == C.LongSpan(config.dcid, wire)
    {
      if (wire[0] / 16) % 4 != 0 {
        return C.Err(C.UnsupportedLongHeader);
      }
      var off: nat := 5;
      var dcidLen: nat := wire[off];
      off := off + 1;
      if |wire| < off + dcidLen {
        return C.Err(C.ShortRead);
      }
      if dcidLen == 8 && wire[off..off + 8] != config.dcid {
        return C.Err(C.DcidMismatch);
      }
      off := off + dcidLen;
      if |wire| < off + 1 {
        return C.Err(C.ShortRead);
      }
      var scidLen: nat := wire[off];
      off := off + 1;
      if |wire| < off + scidLen {
        return C.Err(C.ShortRead);
      }
      off := off + scidLen;
      if |wire| < off + 1 {
        return C.Err(C.ShortRead);
      }
      var tokenLen: nat := wire[off];
      off := off + 1;
      if |wire| < off + tokenLen {
        return C.Err(C.ShortRead);
      }
      off := off + tokenLen;
      var (payloadLen, varintSize) := C.ReadVarint(wire[off..]);
      if varintSize == 0 {
        return C.Err(C.InvalidVarint);
      }
      off := off + varintSize;
      if |wire| < off + 1 {
        return C.Err(C.ShortRead);
      }
      off := off + 1;
      var encPayloadLen: int := payloadLen - 1;
      if encPayloadLen < 0 || |wire| < off + encPayloadLen {
        return C.Err(C.ShortRead);
      }
      r := C.Ok((off, encPayloadLen));
    }

    method ParsePlaintext(plaintext: Bytes) returns (r: C.Result<C.Packet>)
      requires |plaintext| >= C.HEADER_SIZE
      ensures r == C.Parse(config, plaintext)
    {
      var payloadLen := Get16(plaintext[9..]);
      var remaining := plaintext[C.HEADER_SIZE..];
      if |remaining| < payloadLen {
        return C.Err(C.LengthMismatch);
      }
      var payload := remaining[..payloadLen];
      var flags := plaintext[11];
      if C.IsCompressed(flags) {
        var decompressed := DecompressPayload(config.compression, payload);
        match decompressed {
          case Data(bytes) => payload := bytes;
          case DecodeError => return C.Err(C.DecompressionFailed);
          case SliceOutOfRange => return C.Err(C.Panic);
        }
        flags := C.WithoutCompressed(flags);
      }
      var sack := ReadSack(flags, remaining[payloadLen..]);
      r := C.Ok(C.Packet(plaintext[0], Get32(plaintext[1..]), Get32(plaintext[5..]), flags, payload, sack));
    }

    method ReadSack(flags: byte, sackData: Bytes) returns (blocks: seq<nat>)
      ensures blocks == C.ReadSack(flags, sackData)
    {
      blocks := [];
      if C.HasSack(flags) && |sackData| >= 2 {
        var sackCount := Get16(sackData);
        if |sackData| >= 2 + sackCount * 4 {
          for i := 0 to sackCount
            invariant blocks == C.GetAll32(sackData[2..], i)
          {
            assert sackData[2..][4 * i..] == sackData[2 + i * 4..];
            blocks := blocks + [Get32(sackData[2 + i * 4..])];
          }
        }
      }
    }
  }
}
