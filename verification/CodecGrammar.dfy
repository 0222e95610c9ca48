/**
 Which datagrams the codec accepts, and as what: a grammar on bytes that does
 not mention the decoder, with nothing assumed of the cipher or the sender.
 Header forms follow sections 17.2.2 and 17.3.1 of RFC 9000, the length field
 section 16.
 */
module CodecGrammar {
  import opened Base
  import opened BigEndian
  import opened Compression
  import opened Codec
  import opened CodecRoundTrip

  // ---- numbers --------------------------------------------------------------------

  /** The byte at `i`, as a number. */
  function At(b: Bytes, i: nat): (v: nat)
    requires i < |b|
    ensures v < 256
  {
    b[i]
  }

  /** The two bytes at `i` stand for `v`. */
  predicate Is16(b: Bytes, i: nat, v: nat) {
    i + 2 <= |b| && v == At(b, i) * 256 + At(b, i + 1)
  }

  predicate Is32(b: Bytes, i: nat, v: nat) {
    && i + 4 <= |b|
    && v == At(b, i) * 0x100_0000 + At(b, i + 1) * 0x1_0000 + At(b, i + 2) * 0x100 + At(b, i + 3)
  }

  /** A variable-length integer: the two high bits of the first byte tell the size. */
  predicate IsVarint(b: Bytes, v: nat) {
    || (|b| == 1 && b[0] < 64 && v == At(b, 0))
    || (|b| == 2 && 64 <= b[0] < 128 && Is16(b, 0, v + 0x4000))
    || (|b| == 4 && 128 <= b[0] < 192 && Is32(b, 0, v + 0x8000_0000))
    || (|b| == 8 && 192 <= b[0] && Is64(b, v))
  }

  /** Eight bytes without the two high bits. */
  predicate Is64(b: Bytes, v: nat) {
    && |b| == 8 && v < 0x4000_0000_0000_0000
    && Is32(b, 0, v / 0x1_0000_0000 + 0xC000_0000) && Is32(b, 4, v % 0x1_0000_0000)
  }

  // ---- the two header forms -----------------------------------------------------------

  /** One byte, our connection id, one byte of packet number, the encrypted part. */
  ghost predicate IsShort(dcid: Bytes, wire: Bytes, enc: Bytes) {
    && |wire| >= 12 && wire[0] < 128 && |dcid| == 8
    && wire == [wire[0]] + dcid + [wire[9]] + enc
  }

  /** The parts of a long-header datagram; `rest` is what follows the encrypted part. */
  datatype Long = Long(
    first: byte, version: Bytes, id: Bytes, scid: Bytes, token: Bytes, length: Bytes, pn: byte, enc: Bytes, rest: Bytes)

  function Head(l: Long): Bytes {
    [l.first] + l.version + [|l.id| % 256] + l.id + [|l.scid| % 256] + l.scid + [|l.token| % 256] + l.token
  }

  function Joined(l: Long): Bytes {
    Head(l) + l.length + [l.pn] + l.enc + l.rest
  }

  /** Form bit set, type bits zero, and an 8-byte connection id is ours. */
  ghost predicate IsLong(dcid: Bytes, wire: Bytes, l: Long) {
    && |wire| >= 12 && wire == Joined(l)
    && l.first >= 128 && (l.first / 16) % 4 == 0 && |l.version| == 4
    && |l.id| < 256 && |l.scid| < 256 && |l.token| < 256
    && (|l.id| == 8 ==> l.id == dcid)
    && IsVarint(l.length, 1 + |l.enc|)
  }

  ghost predicate Carries(dcid: Bytes, wire: Bytes, enc: Bytes) {
    IsShort(dcid, wire, enc) || exists l: Long :: l.enc == enc && IsLong(dcid, wire, l)
  }

  // ---- the plaintext -------------------------------------------------------------------

  /** The decompressed frame: too short to be one, stored, or compressed. */
  ghost predicate Unframes(z: Zstd, frame: Bytes, data: Bytes) {
    || (|frame| < 5 && data == frame)
    || (|frame| >= 5 && frame[0] == 0 && exists size: nat ::
          Is32(frame, 1, size) && 5 + size <= |frame| && data == frame[5..5 + size])
    || (|frame| >= 5 && frame[0] != 0 && z.decodeAll(frame[5..]) == Some(data))
  }

  /** The SACK list behind the body, if flag bit 1 says so and the list is complete. */
  ghost predicate Lists(flags: byte, trailer: Bytes, sack: seq<nat>) {
    if (flags / 2) % 2 == 1 && |trailer| >= 2 && |trailer| >= 2 + 4 * (At(trailer, 0) * 256 + At(trailer, 1)) then
      && Is16(trailer, 0, |sack|)
      && forall i :: 0 <= i < |sack| ==> Is32(trailer, 2 + 4 * i, sack[i])
    else sack == []
  }

  /** Twelve bytes of header, the body, the trailer. */
  ghost predicate Reads(c: CompressionConfig, plain: Bytes, p: Packet) {
    && |plain| >= 12 && p.typ == plain[0]
    && Is32(plain, 1, p.seqNum) && Is32(plain, 5, p.ackNum)
    && var length := At(plain, 9) * 256 + At(plain, 10);
       var flags := plain[11];
       && 12 + length <= |plain|
       && (if (flags / 8) % 2 == 1 then p.flags == flags - 8 else p.flags == flags)
       && (if (flags / 8) % 2 == 1 && c.enable then Unframes(c.zstd, plain[12..12 + length], p.payload)
           else p.payload == plain[12..12 + length])
       && Lists(flags, plain[12 + length..], p.sack)
  }

  /** The datagram carries an encrypted part that the cipher opens to a plaintext that reads as this packet. */
  ghost predicate Accepted(c: Config, wire: Bytes, p: Packet) {
    exists enc: Bytes, plain: Bytes ::
      && Carries(c.dcid, wire, enc) && Opens(c.aead, enc, plain)
      && Reads(c.compression, plain, p)
  }

  /** 24 bytes of nonce, then ciphertext and tag of a header at least. */
  predicate Opens(aead: Aead, enc: Bytes, plain: Bytes) {
    |enc| >= 24 + 16 + 12 && aead.unseal(enc[..24], enc[24..]) == Some(plain)
  }

  // ---- the decoder reads this grammar ----------------------------------------------------

  lemma Word(b: Bytes, i: nat)
    requires i + 4 <= |b|
    ensures Is32(b, i, Get32(b[i..]))
  {
  }

  lemma WordIs(b: Bytes, i: nat, v: nat, w: nat)
    requires Is32(b, i, v) && Is32(b, i, w)
    ensures v == w
  {
  }

  lemma VarintIff8(b: Bytes, v: nat)
    requires |b| >= 8 && b[0] >= 192
    ensures ReadVarint(b) == (v, 8) <==> Is64(b[..8], v)
  {
    var hi, lo := Get32(b), Get32(b[4..]);
    Word(b, 0);
    Word(b, 4);
    assert b[0..] == b;
    assert hi * U32 + lo == (hi - 0xC000_0000) * U32 + lo + 3 * 0x4000_0000_0000_0000;
    assert 0 <= (hi - 0xC000_0000) * U32 + lo < 0x4000_0000_0000_0000;
    assert (hi * U32 + lo) % 0x4000_0000_0000_0000 == (hi - 0xC000_0000) * U32 + lo;
  }

  lemma VarintIff(b: Bytes, v: nat, n: nat)
    requires n > 0
    ensures ReadVarint(b) == (v, n) <==> n <= |b| && IsVarint(b[..n], v)
  {
    if |b| >= 8 && b[0] >= 192 {
      VarintIff8(b, v);
    }
  }

  lemma ShortIff(dcid: Bytes, wire: Bytes, enc: Bytes)
    requires |wire| >= 12 && wire[0] < 128
    ensures IsShort(dcid, wire, enc) <==> EncryptedPart(dcid, wire) == Ok(enc)
  {
    if wire[1..9] == dcid && enc == wire[10..] {
      assert wire == [wire[0]] + dcid + [wire[9]] + enc;
    }
    if IsShort(dcid, wire, enc) {
      assert wire[1..9] == dcid && wire[10..] == enc;
    }
  }

  /** Where the parts of the head lie. */
  lemma HeadParts(l: Long)
    requires |l.version| == 4 && |l.id| < 256 && |l.scid| < 256 && |l.token| < 256
    ensures var head := Head(l);
            var a := 7 + |l.id|;
            var b := a + |l.scid| + 1;
            && |head| == b + |l.token|
            && head[0] == l.first && head[5] == |l.id| && head[6..6 + |l.id|] == l.id
            && head[a - 1] == |l.scid| && head[b - 1] == |l.token|
  {
    var p := [l.first] + l.version + [|l.id| % 256];
    var q := p + l.id + [|l.scid| % 256];
    var r := q + l.scid + [|l.token| % 256];
    assert Head(l) == r + l.token;
    assert Head(l)[..|r|] == r && r[..|q|] == q && q[..|p|] == p;
    assert Head(l)[6..6 + |l.id|] == q[6..6 + |l.id|] == l.id;
  }

  /** What follows the head. */
  lemma TailParts(wire: Bytes, l: Long)
    requires wire == Joined(l)
    ensures var d := |Head(l)|;
            && |wire| == d + |l.length| + 1 + |l.enc| + |l.rest|
            && wire[..d] == Head(l) && wire[d..][..|l.length|] == l.length
            && wire[d + |l.length| + 1..d + |l.length| + 1 + |l.enc|] == l.enc
  {
    var d := |Head(l)|;
    var p := Head(l) + l.length;
    var q := p + [l.pn];
    assert wire == q + l.enc + l.rest;
    assert wire[..|q|] == q && q[..|p|] == p && p[..d] == Head(l);
    assert wire[d..][..|l.length|] == p[d..] == l.length;
    assert wire[|q|..|q| + |l.enc|] == l.enc;
  }

  lemma LongIsRead(dcid: Bytes, wire: Bytes, l: Long)
    requires IsLong(dcid, wire, l)
    ensures EncryptedPart(dcid, wire) == Ok(l.enc) && wire[0] >= 128
  {
    var head, d := Head(l), |Head(l)|;
    HeadParts(l);
    TailParts(wire, l);
    assert forall i :: 0 <= i < d ==> wire[i] == head[i];
    assert wire[6..6 + |l.id|] == head[6..6 + |l.id|];
    VarintIff(wire[d..], 1 + |l.enc|, |l.length|);
    LongSpanIs(dcid, wire, |l.id|, |l.scid|, |l.token|, |l.length|, |l.enc|);
  }

  lemma LongSpanIs(dcid: Bytes, wire: Bytes, id: nat, scid: nat, token: nat, size: nat, length: nat)
    requires var a := 7 + id; var b := a + scid + 1; var d := b + token;
             && |wire| >= 12 && (wire[0] / 16) % 4 == 0 && wire[5] == id
             && |wire| >= d + size + 1 + length
             && (id == 8 ==> wire[6..14] == dcid) && wire[a - 1] == scid && wire[b - 1] == token
             && size > 0 && ReadVarint(wire[d..]) == (1 + length, size)
    ensures LongSpan(dcid, wire) == Ok((8 + id + scid + token + size + 1, length))
  {
  }

  /** The parts at the places the decoder looks at. */
  function Parts(wire: Bytes, a: nat, b: nat, d: nat, size: nat, length: nat): Long
    requires |wire| >= 12 && 7 <= a < b <= d && d + size + 1 + length <= |wire|
  {
    Long(wire[0], wire[1..5], wire[6..a - 1], wire[a..b - 1], wire[b..d], wire[d..d + size], wire[d + size],
         wire[d + size + 1..d + size + 1 + length], wire[d + size + 1 + length..])
  }

  lemma PartsJoin(wire: Bytes, a: nat, b: nat, d: nat, size: nat, length: nat)
    requires |wire| >= 12 && 7 <= a < b <= d && d + size + 1 + length <= |wire|
    requires wire[5] == a - 7 && wire[a - 1] == b - 1 - a && wire[b - 1] == d - b
    ensures Joined(Parts(wire, a, b, d, size, length)) == wire
  {
    var l := Parts(wire, a, b, d, size, length);
    assert [l.first] + l.version == wire[..5];
    assert wire[..5] + [|l.id| % 256] == wire[..6];
    assert wire[..6] + l.id == wire[..a - 1];
    assert wire[..a - 1] + [|l.scid| % 256] == wire[..a];
    assert wire[..a] + l.scid == wire[..b - 1];
    assert wire[..b - 1] + [|l.token| % 256] == wire[..b];
    assert wire[..b] + l.token == wire[..d];
    assert wire[..d] + l.length == wire[..d + size];
    assert wire[..d + size] + [l.pn] == wire[..d + size + 1];
    assert wire[..d + size + 1] + l.enc == wire[..d + size + 1 + length];
    assert wire[..d + size + 1 + length] + l.rest == wire;
  }

  /** What the decoder has found when it knows the span. */
  lemma SpanFound(dcid: Bytes, wire: Bytes) returns (a: nat, b: nat, d: nat, size: nat, v: nat)
    requires |wire| >= 12 && LongSpan(dcid, wire).Ok?
    ensures (wire[0] / 16) % 4 == 0 && 7 <= a < b <= d <= |wire|
    ensures wire[5] == a - 7 && wire[a - 1] == b - 1 - a && wire[b - 1] == d - b
    ensures size > 0 && v > 0 && d + size + v <= |wire| && ReadVarint(wire[d..]) == (v, size)
    ensures LongSpan(dcid, wire) == Ok((d + size + 1, v - 1)) && (a == 15 ==> wire[6..14] == dcid)
  {
    a := 7 + At(wire, 5);
    b := a + At(wire, a - 1) + 1;
    d := b + At(wire, b - 1);
    var r := ReadVarint(wire[d..]);
    v, size := r.0, r.1;
  }

  lemma ReadIsLong(dcid: Bytes, wire: Bytes, enc: Bytes)
    requires |wire| >= 12 && wire[0] >= 128 && EncryptedPart(dcid, wire) == Ok(enc)
    ensures exists l: Long :: l.enc == enc && IsLong(dcid, wire, l)
  {
    var a, b, d, size, v := SpanFound(dcid, wire);
    PartsFit(dcid, wire, a, b, d, size, v);
    assert Parts(wire, a, b, d, size, v - 1).enc == enc;
  }

  lemma PartsFit(dcid: Bytes, wire: Bytes, a: nat, b: nat, d: nat, size: nat, v: nat)
    requires |wire| >= 12 && wire[0] >= 128 && (wire[0] / 16) % 4 == 0 && 7 <= a < b <= d
    requires v > 0 && d + size + v <= |wire|
    requires wire[5] == a - 7 && wire[a - 1] == b - 1 - a && wire[b - 1] == d - b
    requires size > 0 && ReadVarint(wire[d..]) == (v, size) && (a == 15 ==> wire[6..14] == dcid)
    ensures IsLong(dcid, wire, Parts(wire, a, b, d, size, v - 1))
  {
    VarintIff(wire[d..], v, size);
    assert wire[d..][..size] == wire[d..d + size];
    PartsJoin(wire, a, b, d, size, v - 1);
  }

  lemma NotLong(dcid: Bytes, wire: Bytes)
    requires |wire| < 12 || wire[0] < 128
    ensures !exists l: Long :: IsLong(dcid, wire, l)
  {
    if l: Long :| IsLong(dcid, wire, l) {
      LongIsRead(dcid, wire, l);
      assert false;
    }
  }

  /** The decoder finds an encrypted part exactly where the grammar says. */
  lemma EncryptedPartIff(dcid: Bytes, wire: Bytes, enc: Bytes)
    ensures EncryptedPart(dcid, wire) == Ok(enc) <==> Carries(dcid, wire, enc)
  {
    if |wire| >= 12 && wire[0] < 128 {
      ShortIff(dcid, wire, enc);
      NotLong(dcid, wire);
    } else if |wire| >= 12 {
      if EncryptedPart(dcid, wire) == Ok(enc) {
        ReadIsLong(dcid, wire, enc);
      }
      forall l: Long | l.enc == enc && IsLong(dcid, wire, l) ensures EncryptedPart(dcid, wire) == Ok(enc) {
        LongIsRead(dcid, wire, l);
      }
    }
  }

  // ---- the plaintext ------------------------------------------------------------------------

  lemma {:induction false} GetAll32At(b: Bytes, count: nat, i: nat)
    requires |b| >= 4 * count && i < count
    ensures |GetAll32(b, count)| == count && GetAll32(b, count)[i] == Get32(b[4 * i..])
  {
    if count > 1 {
      GetAll32At(b, count - 1, if i < count - 1 then i else 0);
    }
  }

  /** A complete list read word by word. */
  lemma ListIs(trailer: Bytes, sack: seq<nat>, n: nat)
    requires |trailer| >= 2 + 4 * n
    ensures sack == GetAll32(trailer[2..], n) <==>
              |sack| == n && forall i :: 0 <= i < n ==> Is32(trailer, 2 + 4 * i, sack[i])
  {
    var read := GetAll32(trailer[2..], n);
    ListRead(trailer, n);
    if |sack| == n && forall i :: 0 <= i < n ==> Is32(trailer, 2 + 4 * i, sack[i]) {
      forall i | 0 <= i < n ensures sack[i] == read[i] {
        WordIs(trailer, 2 + 4 * i, sack[i], read[i]);
      }
      assert sack == read;
    }
  }

  lemma ListRead(trailer: Bytes, n: nat)
    requires |trailer| >= 2 + 4 * n
    ensures |GetAll32(trailer[2..], n)| == n
    ensures forall i :: 0 <= i < n ==> Is32(trailer, 2 + 4 * i, GetAll32(trailer[2..], n)[i])
  {
    if n > 0 {
      GetAll32At(trailer[2..], n, 0);
    }
    forall i | 0 <= i < n ensures Is32(trailer, 2 + 4 * i, GetAll32(trailer[2..], n)[i]) {
      GetAll32At(trailer[2..], n, i);
      Word(trailer, 2 + 4 * i);
      assert trailer[2..][4 * i..] == trailer[2 + 4 * i..];
    }
  }

  lemma ListsIff(flags: byte, trailer: Bytes, sack: seq<nat>)
    ensures Lists(flags, trailer, sack) <==> sack == ReadSack(flags, trailer)
  {
    if (flags / 2) % 2 == 1 && |trailer| >= 2 && |trailer| >= 2 + 4 * Get16(trailer) {
      ListIs(trailer, sack, Get16(trailer));
    }
  }

  lemma UnframesIff(z: Zstd, frame: Bytes, data: Bytes)
    ensures Unframes(z, frame, data) <==> DecompressWithHeader(z, frame) == Data(data)
  {
    if |frame| >= 5 {
      assert Is32(frame, 1, Get32(frame[1..]));
    }
  }

  lemma ReadsIff(c: Config, plain: Bytes, p: Packet)
    requires |plain| >= 12
    ensures Reads(c.compression, plain, p) <==> Parse(c, plain) == Ok(p)
  {
    var length, flags := Get16(plain[9..]), plain[11];
    assert Is32(plain, 1, Get32(plain[1..])) && Is32(plain, 5, Get32(plain[5..]));
    if 12 + length <= |plain| {
      var body, trailer := plain[12..12 + length], plain[12 + length..];
      assert plain[12..][..length] == body && plain[12..][length..] == trailer;
      ListsIff(flags, trailer, p.sack);
      assert Lists(WithoutCompressed(flags), trailer, p.sack) <==> Lists(flags, trailer, p.sack) by {
        CompressedFlagLaws(flags);
        ListsIff(WithoutCompressed(flags), trailer, p.sack);
      }
      ListsIff(WithoutCompressed(flags), trailer, p.sack);
      UnframesIff(c.compression.zstd, body, p.payload);
    }
  }

  /**
   The datagrams Decode accepts, and what it makes of each, for every datagram
   and every cipher, with no assumption on either: exactly those of the grammar.
   */
  lemma DecodesIff(c: Config, wire: Bytes, p: Packet)
    ensures Decode(c, wire) == Ok(p) <==> Accepted(c, wire, p)
  {
    if Accepted(c, wire, p) {
      var enc: Bytes, plain: Bytes :| && Carries(c.dcid, wire, enc) && Opens(c.aead, enc, plain)
                                      && Reads(c.compression, plain, p);
      EncryptedPartIff(c.dcid, wire, enc);
      ReadsIff(c, plain, p);
    }
    if Decode(c, wire) == Ok(p) {
      var enc := EncryptedPart(c.dcid, wire).value;
      var plain := Unsealed(c, enc).value;
      EncryptedPartIff(c.dcid, wire, enc);
      ReadsIff(c, plain, p);
      assert Carries(c.dcid, wire, enc) && Opens(c.aead, enc, plain) && Reads(c.compression, plain, p);
    }
  }

  // ---- what is rejected, and how -------------------------------------------------------------

  /** A datagram for another connection id, or of another long type, is rejected before it is decrypted. */
  lemma ForeignRejectedIff(c: Config, wire: Bytes)
    ensures Decode(c, wire) == Err(TooShort) <==> |wire| < 12
    ensures Decode(c, wire) == Err(UnsupportedLongHeader) <==>
              |wire| >= 12 && wire[0] >= 128 && (wire[0] / 16) % 4 != 0
    ensures Decode(c, wire) == Err(DcidMismatch) <==>
              && |wire| >= 12
              && (|| (wire[0] < 128 && wire[1..9] != c.dcid)
                  || (&& wire[0] >= 128 && (wire[0] / 16) % 4 == 0 && wire[5] == 8 && |wire| >= 14
                      && wire[6..14] != c.dcid))
  {
  }

  /** What happens to the encrypted part. */
  lemma SealedRejectedIff(c: Config, wire: Bytes, enc: Bytes)
    requires Carries(c.dcid, wire, enc)
    ensures Decode(c, wire) == Err(EncryptedTooShort) <==> |enc| < 52
    ensures Decode(c, wire) == Err(DecryptionFailed) <==> |enc| >= 52 && c.aead.unseal(enc[..24], enc[24..]) == None
    ensures Decode(c, wire) == Err(HeaderTooShort) <==> exists plain :: Opens(c.aead, enc, plain) && |plain| < 12
  {
    EncryptedPartIff(c.dcid, wire, enc);
    assert EncryptedPart(c.dcid, wire) == Ok(enc);
    OpenedOrRejected(c, enc);
  }

  lemma OpenedOrRejected(c: Config, enc: Bytes)
    ensures Unsealed(c, enc) == Err(EncryptedTooShort) <==> |enc| < 52
    ensures Unsealed(c, enc) == Err(DecryptionFailed) <==>
              |enc| >= 52 && c.aead.unseal(enc[..24], enc[24..]) == None
    ensures Unsealed(c, enc) == Err(HeaderTooShort) <==> exists plain :: Opens(c.aead, enc, plain) && |plain| < 12
  {
    if |enc| >= 52 && c.aead.unseal(enc[..24], enc[24..]).Some? {
      assert Opens(c.aead, enc, c.aead.unseal(enc[..24], enc[24..]).value);
    }
  }

  /** What happens to the plaintext; the last case makes the code panic. */
  lemma PlaintextRejectedIff(c: Config, wire: Bytes, enc: Bytes, plain: Bytes)
    requires Carries(c.dcid, wire, enc) && Opens(c.aead, enc, plain) && |plain| >= 12
    ensures var end := 12 + At(plain, 9) * 256 + At(plain, 10);
            && (Decode(c, wire) == Err(LengthMismatch) <==> |plain| < end)
            && (Decode(c, wire) == Err(DecompressionFailed) <==>
                  && |plain| >= end && (plain[11] / 8) % 2 == 1 && c.compression.enable
                  && end >= 17 && plain[12] != 0 && c.compression.zstd.decodeAll(plain[17..end]) == None)
            && (Decode(c, wire) == Err(Panic) <==>
                  && |plain| >= end && (plain[11] / 8) % 2 == 1 && c.compression.enable
                  && end >= 17 && plain[12] == 0 && forall size: nat :: Is32(plain, 13, size) ==> 17 + size > end)
  {
    EncryptedPartIff(c.dcid, wire, enc);
    assert Decode(c, wire) == Parse(c, plain);
    var end := 12 + At(plain, 9) * 256 + At(plain, 10);
    if |plain| >= end {
      assert plain[12..][..end - 12] == plain[12..end];
      if end >= 17 {
        assert plain[12..end][5..] == plain[17..end];
        Word(plain, 13);
        assert Get32(plain[12..end][1..]) == Get32(plain[13..]);
      }
    }
  }

  // ---- what is sent ------------------------------------------------------------------------------

  /** The parts of a handshake datagram. */
  function HandshakeParts(c: Config, seqNum: nat, enc: Bytes): Long {
    var length := |enc| + 1;
    Long(192, [0, 0, 0, 1], c.dcid, c.scid, [], [(length / 256 % 64) + 64, length % 256], seqNum % 256, enc, [])
  }

  /**
   What Encode puts on the wire, byte by byte: SYN and SYN-ACK (types 3 and 4)
   in the long form of version 1 with both connection ids, no token and a
   two-byte length, everything else in the short form with first byte 64.
   */
  lemma WireIs(c: Config, p: Packet, nonce: Bytes)
    requires Usable(c) && Encodable(c, p) && |nonce| == 24
    requires (p.typ == 3 || p.typ == 4) ==> LengthField(c, p) >= 64
    ensures var wire := Wire(c, p, nonce);
            exists ct: Bytes ::
              && c.aead.unseal(nonce, ct).Some?
              && if p.typ == 3 || p.typ == 4 then IsLong(c.dcid, wire, HandshakeParts(c, p.seqNum, nonce + ct))
                 else wire[0] == 64 && wire[9] == p.seqNum % 256 && IsShort(c.dcid, wire, nonce + ct)
  {
    var ct := c.aead.seal(nonce, Plaintext(c, p));
    var enc, wire := nonce + ct, Wire(c, p, nonce);
    SealedOpens(c, p, nonce);
    assert |enc| + 1 == LengthField(c, p) && |enc| < 16000 by { PlaintextShape(c, p); }
    if p.typ == 3 || p.typ == 4 {
      LongWireIs(c, p.seqNum, enc);
    } else {
      assert wire == [wire[0]] + c.dcid + [wire[9]] + enc;
    }
  }

  lemma LongWireIs(c: Config, seqNum: nat, enc: Bytes)
    requires |c.dcid| == 8 && |c.scid| == 8 && 63 <= |enc| < 16000
    ensures IsLong(c.dcid, LongPrefix(c.dcid, c.scid) + Varint(1 + |enc|) + [seqNum % 256] + enc,
                   HandshakeParts(c, seqNum, enc))
  {
    var l, length := HandshakeParts(c, seqNum, enc), 1 + |enc|;
    TwoByteVarint(length);
    assert Head(l) == LongPrefix(c.dcid, c.scid);
    assert l.length == Varint(length);
    assert Joined(l) == LongPrefix(c.dcid, c.scid) + Varint(length) + [seqNum % 256] + enc;
  }

  lemma TwoByteVarint(v: nat)
    requires 64 <= v < 16384
    ensures Varint(v) == [(v / 256 % 64) + 64, v % 256] && IsVarint(Varint(v), v)
  {
    assert v / 256 < 64 && (v + 0x4000) / 256 == v / 256 + 64 && (v + 0x4000) % 256 == v % 256;
  }
}
