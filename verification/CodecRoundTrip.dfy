/** What Decode makes of what Encode produced, for both header forms. */
module CodecRoundTrip {
  import opened Base
  import opened BigEndian
  import opened Compression
  import opened Codec

  /** What a receiver should see: Encode's own compression flag is not part of the packet. */
  function Restored(p: Packet): Packet {
    p.(flags := WithoutCompressed(p.flags), sack := if HasSack(p.flags) then p.sack else [])
  }

  /**
   Field widths, the 2048-byte buffer, and a compression flag that only Encode
   itself has set: the packet is fresh, or it is about to be compressed again.
   */
  ghost predicate Encodable(c: Config, p: Packet) {
    && p.seqNum < U32 && p.ackNum < U32 && (forall s <- p.sack :: s < U32)
    && |Plaintext(c, p)| <= BUFFER_SIZE
    && (IsCompressed(p.flags) ==> Shrinks(c.compression, p.payload))
  }

  // ---- plaintext ------------------------------------------------------------

  lemma {:induction false} PutAll32Length(vs: seq<nat>)
    ensures |PutAll32(vs)| == 4 * |vs|
  {
    if vs != [] {
      PutAll32Length(vs[..|vs| - 1]);
    }
  }

  lemma WordAfter(prefix: Bytes, v: nat, b: Bytes)
    requires prefix + Put32(v) <= b && v < U32
    ensures Get32(b[|prefix|..]) == v && prefix <= b
  {
    var tail := b[|prefix| + 4..];
    assert b == prefix + Put32(v) + tail;
    assert b[|prefix|..] == Put32(v) + tail;
    Get32Put32(v, tail);
  }

  lemma {:induction false} GetAll32PutAll32(vs: seq<nat>, b: Bytes)
    requires forall v <- vs :: v < U32
    requires PutAll32(vs) <= b && |b| >= 4 * |vs|
    ensures GetAll32(b, |vs|) == vs
  {
    if vs != [] {
      var init, last := vs[..|vs| - 1], vs[|vs| - 1];
      assert last in vs && forall v <- init :: v in vs;
      PutAll32Length(init);
      WordAfter(PutAll32(init), last, b);
      GetAll32PutAll32(init, b);
    }
  }

  lemma HeaderFields(typ: byte, seqNum: nat, ackNum: nat, bodyLen: nat, flags: byte, rest: Bytes)
    requires seqNum < U32 && ackNum < U32 && bodyLen < 0x1_0000
    ensures var plain := Header(typ, seqNum, ackNum, bodyLen, flags) + rest;
            && |plain| == HEADER_SIZE + |rest| && plain[HEADER_SIZE..] == rest
            && plain[0] == typ && plain[11] == flags
            && Get32(plain[1..]) == seqNum && Get32(plain[5..]) == ackNum && Get16(plain[9..]) == bodyLen
  {
    var plain := Header(typ, seqNum, ackNum, bodyLen, flags) + rest;
    assert plain[9..] == Put16(bodyLen) + ([flags] + rest);
    assert plain[5..] == Put32(ackNum) + (Put16(bodyLen) + [flags] + rest);
    assert plain[1..] == Put32(seqNum) + (Put32(ackNum) + Put16(bodyLen) + [flags] + rest);
    Get16Put16(bodyLen, [flags] + rest);
    Get32Put32(ackNum, Put16(bodyLen) + [flags] + rest);
    Get32Put32(seqNum, Put32(ackNum) + Put16(bodyLen) + [flags] + rest);
  }

  lemma SackRoundTrip(flags: byte, sack: seq<nat>)
    requires |sack| < 0x1_0000 && forall s <- sack :: s < U32
    ensures ReadSack(flags, SackTrailer(flags, sack)) == if HasSack(flags) then sack else []
  {
    if HasSack(flags) && |sack| > 0 {
      var trailer := SackTrailer(flags, sack);
      PutAll32Length(sack);
      Get16Put16(|sack|, PutAll32(sack));
      assert trailer[2..] == PutAll32(sack);
      GetAll32PutAll32(sack, trailer[2..]);
    }
  }

  lemma PlaintextShape(c: Config, p: Packet)
    requires Encodable(c, p)
    ensures |Plaintext(c, p)| ==
            HEADER_SIZE + |Body(c.compression, p.payload)| + |SackTrailer(EncodedFlags(c, p), p.sack)|
    ensures |Body(c.compression, p.payload)| < 0x1_0000
    ensures HasSack(EncodedFlags(c, p)) ==> |p.sack| < 0x1_0000
    ensures HasSack(EncodedFlags(c, p)) == HasSack(p.flags)
  {
    CompressedFlagLaws(p.flags);
    if HasSack(EncodedFlags(c, p)) && |p.sack| > 0 {
      PutAll32Length(p.sack);
    }
  }

  /** The compression flag is on the wire exactly when the body is a compressed frame. */
  lemma FlagTellsFrame(c: Config, p: Packet)
    requires Encodable(c, p)
    ensures IsCompressed(EncodedFlags(c, p)) <==> Body(c.compression, p.payload) != p.payload
    ensures IsCompressed(EncodedFlags(c, p)) ==>
              Body(c.compression, p.payload) == Frame(1, |p.payload|, c.compression.zstd.encodeAll(p.payload))
  {
    CompressedFlagLaws(p.flags);
    ShorterBodyIsCompressedFrame(c.compression, p.payload);
  }

  lemma ParseLaidOut(c: Config, typ: byte, seqNum: nat, ackNum: nat, flags: byte, body: Bytes, trailer: Bytes)
    requires seqNum < U32 && ackNum < U32 && |body| < 0x1_0000
    ensures var plain := Header(typ, seqNum, ackNum, |body|, flags) + body + trailer;
            var clear := WithoutCompressed(flags);
            var packet := Packet(typ, seqNum, ackNum, clear, body, ReadSack(clear, trailer));
            && |plain| >= HEADER_SIZE
            && Parse(c, plain) == if IsCompressed(flags) then Inflated(c, packet) else Ok(packet)
  {
    assert Header(typ, seqNum, ackNum, |body|, flags) + body + trailer
        == Header(typ, seqNum, ackNum, |body|, flags) + (body + trailer);
    HeaderFields(typ, seqNum, ackNum, |body|, flags, body + trailer);
    assert (body + trailer)[..|body|] == body && (body + trailer)[|body|..] == trailer;
  }

  /** What any receiver makes of an encoded plaintext, up to decompression. */
  lemma ParseEncoded(c: Config, receiver: Config, p: Packet)
    requires Encodable(c, p)
    ensures |Plaintext(c, p)| >= HEADER_SIZE
    ensures var packet := Restored(p).(payload := Body(c.compression, p.payload));
            Parse(receiver, Plaintext(c, p)) ==
            if IsCompressed(EncodedFlags(c, p)) then Inflated(receiver, packet) else Ok(packet)
  {
    var body, flags := Body(c.compression, p.payload), EncodedFlags(c, p);
    PlaintextShape(c, p);
    ParseLaidOut(receiver, p.typ, p.seqNum, p.ackNum, flags, body, SackTrailer(flags, p.sack));
    SackWithEitherFlags(flags, p.sack);
    CompressedFlagLaws(p.flags);
  }

  lemma ParsePlaintext(c: Config, p: Packet)
    requires Usable(c) && Encodable(c, p) && |p.payload| < U32
    ensures |Plaintext(c, p)| >= HEADER_SIZE && Parse(c, Plaintext(c, p)) == Ok(Restored(p))
  {
    ParseEncoded(c, c, p);
    CompressedFlagLaws(p.flags);
    ShorterBodyIsCompressedFrame(c.compression, p.payload);
    if Shrinks(c.compression, p.payload) {
      BodyRestoredIffEnabled(c.compression, c.compression, p.payload);
    }
  }

  lemma SackWithEitherFlags(flags: byte, sack: seq<nat>)
    requires HasSack(flags) ==> |sack| < 0x1_0000
    requires forall s <- sack :: s < U32
    ensures ReadSack(WithoutCompressed(flags), SackTrailer(flags, sack)) == if HasSack(flags) then sack else []
  {
    CompressedFlagLaws(flags);
    if HasSack(flags) {
      SackRoundTrip(flags, sack);
    }
  }

  // ---- headers ----------------------------------------------------------------

  lemma VarintRoundTrip(v: nat, rest: Bytes)
    requires v < 16384
    ensures ReadVarint(Varint(v) + rest) == (v, if v < 64 then 1 else 2)
  {
    if v < 64 {
      assert v / 64 == 0 && v % 64 == v;
    } else {
      Get16Put16(v + 0x4000, rest);
    }
  }

  /** Bytes of a long-header datagram up to its ciphertext, and what follows the token. */
  lemma LongLayout(dcid: Bytes, scid: Bytes, length: nat, pn: byte, enc: Bytes)
    requires |dcid| == 8 && |scid| == 8
    ensures var wire := LongPrefix(dcid, scid) + Varint(length) + [pn] + enc;
            && |wire| == 27 + |enc|
            && wire[0] == 0xC0 && wire[5] == 8 && wire[6..14] == dcid && wire[14] == 8 && wire[23] == 0
            && wire[24..] == Varint(length) + ([pn] + enc)
            && wire[27..] == enc
  {
    var wire := LongPrefix(dcid, scid) + Varint(length) + [pn] + enc;
    var prefix := LongPrefix(dcid, scid);
    assert prefix[6..14] == dcid;
    assert wire[..24] == prefix;
    assert wire[6..14] == wire[..24][6..14];
  }

  /**
   The decoder finds the ciphertext where the encoder put it exactly when the
   length field is at least 64. Below that it starts one byte early and takes
   the packet number for the first ciphertext byte.
   */
  lemma LongSpanExact(dcid: Bytes, scid: Bytes, pn: byte, enc: Bytes)
    requires |dcid| == 8 && |scid| == 8 && 1 + |enc| < 16384
    ensures var wire := LongPrefix(dcid, scid) + Varint(1 + |enc|) + [pn] + enc;
            LongSpan(dcid, wire) == Ok((if 1 + |enc| >= 64 then 27 else 26, |enc|))
  {
    LongLayout(dcid, scid, 1 + |enc|, pn, enc);
    var wire := LongPrefix(dcid, scid) + Varint(1 + |enc|) + [pn] + enc;
    VarintRoundTrip(1 + |enc|, [pn] + enc);
  }

  lemma LongEncryptedPart(dcid: Bytes, scid: Bytes, pn: byte, enc: Bytes)
    requires |dcid| == 8 && |scid| == 8 && 1 + |enc| < 16384
    ensures var wire := LongPrefix(dcid, scid) + Varint(1 + |enc|) + [pn] + enc;
            EncryptedPart(dcid, wire) == Ok(if 1 + |enc| >= 64 then enc else ([pn] + enc)[..|enc|])
  {
    LongSpanExact(dcid, scid, pn, enc);
    LongLayout(dcid, scid, 1 + |enc|, pn, enc);
    var wire := LongPrefix(dcid, scid) + Varint(1 + |enc|) + [pn] + enc;
    assert wire[27..27 + |enc|] == enc;
    if 1 + |enc| < 64 {
      assert wire[26..26 + |enc|] == ([pn] + enc)[..|enc|];
    }
  }

  lemma ShortEncryptedPart(dcid: Bytes, pn: byte, enc: Bytes)
    requires |dcid| == 8 && |enc| >= 2
    ensures EncryptedPart(dcid, [0x40] + dcid + [pn] + enc) == Ok(enc)
  {
    var wire := [0x40] + dcid + [pn] + enc;
    assert wire[1..9] == dcid && wire[10..] == enc;
  }

  lemma SealedOpens(c: Config, p: Packet, nonce: Bytes)
    requires Usable(c) && Encodable(c, p) && |nonce| == NONCE_SIZE
    ensures |Sealed(c, p, nonce)| + 1 == LengthField(c, p)
    ensures Unsealed(c, Sealed(c, p, nonce)) == Ok(Plaintext(c, p))
  {
    var enc := Sealed(c, p, nonce);
    PlaintextShape(c, p);
    assert enc[..NONCE_SIZE] == nonce && enc[NONCE_SIZE..] == c.aead.seal(nonce, Plaintext(c, p));
  }

  /**
   Decode undoes Encode for every encodable packet, with equal keys and
   connection ids and compression on both sides alike: always with the short
   header, and with the long header from length 64 on.
   */
  lemma DecodeEncode(c: Config, p: Packet, nonce: Bytes)
    requires Usable(c) && Encodable(c, p) && |p.payload| < U32 && |nonce| == NONCE_SIZE
    requires IsInitial(p.typ) ==> LengthField(c, p) >= 64
    ensures Decode(c, Wire(c, p, nonce)) == Ok(Restored(p))
  {
    SealedOpens(c, p, nonce);
    ParsePlaintext(c, p);
    if IsInitial(p.typ) {
      LongEncryptedPart(c.dcid, c.scid, p.seqNum % 256, Sealed(c, p, nonce));
    } else {
      ShortEncryptedPart(c.dcid, p.seqNum % 256, Sealed(c, p, nonce));
    }
  }

  // ---- the long header below length 64 --------------------------------------------

  const MARKER: Bytes := [1, 2, 3, 4, 5, 6, 7, 8, 9, 10, 11, 12, 13, 14, 15, 16]

  /** A lawful cipher that appends a fixed tag and accepts nothing else. */
  function Tagging(): Aead {
    Aead((nonce, p) => p + MARKER,
         (nonce, ct) => if |ct| >= 16 && ct[|ct| - 16..] == MARKER then Some(ct[..|ct| - 16]) else None)
  }

  lemma TaggingIsLawful()
    ensures Lawful(Tagging())
  {
    forall nonce: Bytes, p: Bytes
      ensures |Tagging().seal(nonce, p)| == |p| + OVERHEAD
      ensures Tagging().unseal(nonce, Tagging().seal(nonce, p)) == Some(p)
    {
      var ct := p + MARKER;
      assert ct[|ct| - 16..] == MARKER && ct[..|ct| - 16] == p;
    }
  }

  /** One byte inserted in front and one lost at the end: the tag is no longer where it must be. */
  lemma ShiftedTagRejected(pn: byte, nonce: Bytes, plain: Bytes)
    requires |nonce| == NONCE_SIZE && |plain| >= HEADER_SIZE
    ensures var enc := nonce + (plain + MARKER);
            var shifted := ([pn] + enc)[..|enc|];
            Tagging().unseal(shifted[..NONCE_SIZE], shifted[NONCE_SIZE..]) == None
  {
    var enc := nonce + (plain + MARKER);
    var shifted := ([pn] + enc)[..|enc|];
    var ct := shifted[NONCE_SIZE..];
    assert shifted[|shifted| - 1] == enc[|enc| - 2] == 15;
    assert ct[|ct| - 16..][15] == ct[|ct| - 1] == shifted[|shifted| - 1];
  }

  /** Below length 64 that cipher sees the ciphertext shifted by one byte. */
  lemma ShortSealedRejected(c: Config, plain: Bytes, pn: byte, nonce: Bytes)
    requires Usable(c) && c.aead == Tagging() && |nonce| == NONCE_SIZE && |plain| >= HEADER_SIZE
    requires 1 + NONCE_SIZE + OVERHEAD + |plain| < 64
    ensures var enc := nonce + c.aead.seal(nonce, plain);
            Decode(c, LongPrefix(c.dcid, c.scid) + Varint(1 + |enc|) + [pn] + enc) == Err(DecryptionFailed)
  {
    LongEncryptedPart(c.dcid, c.scid, pn, nonce + c.aead.seal(nonce, plain));
    ShiftedTagRejected(pn, nonce, plain);
  }

  lemma ShortInitialRejected(c: Config, p: Packet, nonce: Bytes)
    requires Usable(c) && c.aead == Tagging() && Encodable(c, p) && |nonce| == NONCE_SIZE
    requires IsInitial(p.typ) && LengthField(c, p) < 64
    ensures Decode(c, Wire(c, p, nonce)) == Err(DecryptionFailed)
  {
    assert |Plaintext(c, p)| >= HEADER_SIZE by { PlaintextShape(c, p); }
    ShortSealedRejected(c, Plaintext(c, p), p.seqNum % 256, nonce);
  }

  ghost predicate RoundTrips(c: Config, p: Packet, nonce: Bytes) {
    Decode(c, Wire(c, p, nonce)) == Ok(Restored(p))
  }

  /**
   A handshake packet survives the long header under every lawful cipher
   exactly when its length field is at least 64.
   */
  lemma InitialRoundTripsIff(c: Config, p: Packet)
    requires Usable(c) && Encodable(c, p) && |p.payload| < U32 && IsInitial(p.typ)
    ensures (forall aead: Aead, nonce: Bytes :: Lawful(aead) && |nonce| == NONCE_SIZE ==>
               RoundTrips(c.(aead := aead), p, nonce))
            <==> LengthField(c, p) >= 64
  {
    if LengthField(c, p) >= 64 {
      forall aead: Aead, nonce: Bytes | Lawful(aead) && |nonce| == NONCE_SIZE
        ensures RoundTrips(c.(aead := aead), p, nonce)
      {
        SamePlaintext(c, aead, p);
        DecodeEncode(c.(aead := aead), p, nonce);
      }
    } else {
      var nonce: Bytes := seq(NONCE_SIZE, _ => 0);
      SamePlaintext(c, Tagging(), p);
      TaggingIsLawful();
      ShortInitialRejected(c.(aead := Tagging()), p, nonce);
      assert !RoundTrips(c.(aead := Tagging()), p, nonce);
    }
  }

  lemma SamePlaintext(c: Config, aead: Aead, p: Packet)
    requires Encodable(c, p)
    ensures Plaintext(c.(aead := aead), p) == Plaintext(c, p) && Encodable(c.(aead := aead), p)
  {
  }

  /** Without SACK trailer and compression, the length field reaches 64 with 11 payload bytes. */
  lemma ElevenBytesSuffice(c: Config, p: Packet)
    requires Encodable(c, p) && SackTrailer(EncodedFlags(c, p), p.sack) == [] && !Shrinks(c.compression, p.payload)
    ensures LengthField(c, p) >= 64 <==> |p.payload| >= 11
  {
    PlaintextShape(c, p);
    ShorterBodyIsCompressedFrame(c.compression, p.payload);
  }

  // ---- encoding again ---------------------------------------------------------------

  /** Encode the same packet object once per nonce, as retransmission does; each call may set its flag. */
  function EncodeAgain(c: Config, p: Packet, nonces: seq<Bytes>): seq<Bytes>
    decreases nonces
  {
    if nonces == [] then [] else [Wire(c, p, nonces[0])] + EncodeAgain(c, AfterEncode(c, p), nonces[1..])
  }

  lemma EncodeIsIdempotentOnFlags(c: Config, p: Packet)
    requires Encodable(c, p)
    ensures Encodable(c, AfterEncode(c, p)) && Plaintext(c, AfterEncode(c, p)) == Plaintext(c, p)
    ensures Restored(AfterEncode(c, p)) == Restored(p)
    ensures AfterEncode(c, AfterEncode(c, p)) == AfterEncode(c, p)
    ensures AfterEncode(c, p).typ == p.typ && AfterEncode(c, p).payload == p.payload
    ensures LengthField(c, AfterEncode(c, p)) == LengthField(c, p)
  {
    CompressedFlagLaws(p.flags);
  }

  /** Every datagram of any number of encodings decodes to the original packet. */
  lemma {:induction false} ReencodingIsStable(c: Config, p: Packet, nonces: seq<Bytes>)
    requires Usable(c) && Encodable(c, p) && |p.payload| < U32
    requires forall nonce <- nonces :: |nonce| == NONCE_SIZE
    requires IsInitial(p.typ) ==> LengthField(c, p) >= 64
    ensures |EncodeAgain(c, p, nonces)| == |nonces|
    ensures forall wire <- EncodeAgain(c, p, nonces) :: Decode(c, wire) == Ok(Restored(p))
    decreases nonces
  {
    if nonces != [] {
      var first := Wire(c, p, nonces[0]);
      var rest := EncodeAgain(c, AfterEncode(c, p), nonces[1..]);
      assert Decode(c, first) == Ok(Restored(p)) by { DecodeEncode(c, p, nonces[0]); }
      assert forall wire <- rest :: Decode(c, wire) == Ok(Restored(p)) by {
        EncodeIsIdempotentOnFlags(c, p);
        ReencodingIsStable(c, AfterEncode(c, p), nonces[1..]);
      }
      assert |rest| == |nonces| - 1 by { EncodeAgainLength(c, AfterEncode(c, p), nonces[1..]); }
    }
  }

  lemma {:induction false} EncodeAgainLength(c: Config, p: Packet, nonces: seq<Bytes>)
    ensures |EncodeAgain(c, p, nonces)| == |nonces|
    decreases nonces
  {
    if nonces != [] {
      EncodeAgainLength(c, AfterEncode(c, p), nonces[1..]);
    }
  }

  /** If only the sender compresses, a fresh packet arrives intact exactly when it did not shrink. */
  lemma OneSidedCompression(c: Config, p: Packet, nonce: Bytes)
    requires Usable(c) && c.compression.enable && Encodable(c, p) && |p.payload| < U32 && |nonce| == NONCE_SIZE
    requires IsInitial(p.typ) ==> LengthField(c, p) >= 64
    ensures var receiver := c.(compression := c.compression.(enable := false));
            Decode(receiver, Wire(c, p, nonce)) == Ok(Restored(p)) <==> !Shrinks(c.compression, p.payload)
  {
    var receiver := c.(compression := c.compression.(enable := false));
    SealedOpens(c, p, nonce);
    if IsInitial(p.typ) {
      LongEncryptedPart(c.dcid, c.scid, p.seqNum % 256, Sealed(c, p, nonce));
    } else {
      ShortEncryptedPart(c.dcid, p.seqNum % 256, Sealed(c, p, nonce));
    }
    assert Unsealed(receiver, Sealed(c, p, nonce)) == Ok(Plaintext(c, p));
    ParseWithout(c, p);
  }

  lemma ParseWithout(c: Config, p: Packet)
    requires Usable(c) && c.compression.enable && Encodable(c, p) && |p.payload| < U32
    ensures |Plaintext(c, p)| >= HEADER_SIZE
    ensures Parse(c.(compression := c.compression.(enable := false)), Plaintext(c, p)) ==
              Ok(Restored(p).(payload := Body(c.compression, p.payload)))
  {
    ParseEncoded(c, c.(compression := c.compression.(enable := false)), p);
  }
}
