/**
 The compression frame of compression.go and its use by the codec. The zstd
 coder is a parameter of which only the inverse law is ever assumed.
 */
module Compression {
  import opened Base
  import opened BigEndian

  /** Below this size CompressWithHeader never compresses (DefaultConfig). */
  const FRAME_MIN_SIZE: int := 64

  /** EncodeAll and DecodeAll; None is a decoding error. */
  datatype Zstd = Zstd(encodeAll: Bytes -> Bytes, decodeAll: Bytes -> Option<Bytes>)

  ghost predicate Inverse(z: Zstd) {
    forall b :: z.decodeAll(z.encodeAll(b)) == Some(b)
  }

  /** [flag: 1][original size: 4][body] */
  function Frame(flag: byte, size: nat, body: Bytes): Bytes {
    [flag] + Put32(size) + body
  }

  predicate WorthIt(z: Zstd, data: Bytes) {
    |data| >= FRAME_MIN_SIZE && |z.encodeAll(data)| < |data| * 9 / 10
  }

  function CompressWithHeader(z: Zstd, data: Bytes): Bytes {
    if WorthIt(z, data) then Frame(1, |data|, z.encodeAll(data)) else Frame(0, |data|, data)
  }

  /** The slice bounds of the stored form are not checked by the code; a bad size makes Go panic. */
  datatype Unframed = Data(bytes: Bytes) | DecodeError | SliceOutOfRange

  function DecompressWithHeader(z: Zstd, frame: Bytes): Unframed {
    if |frame| < 5 then Data(frame)
    else if frame[0] == 0 then
      var size := Get32(frame[1..]);
      if 5 + size <= |frame| then Data(frame[5..5 + size]) else SliceOutOfRange
    else match z.decodeAll(frame[5..])
         case Some(bytes) => Data(bytes)
         case None => DecodeError
  }

  lemma FrameRoundTrip(z: Zstd, data: Bytes)
    requires Inverse(z) && |data| < U32
    ensures DecompressWithHeader(z, CompressWithHeader(z, data)) == Data(data)
  {
    var body := if WorthIt(z, data) then z.encodeAll(data) else data;
    var frame := CompressWithHeader(z, data);
    assert frame[5..] == body;
    assert frame[1..] == Put32(|data|) + body;
    Get32Put32(|data|, body);
    if !WorthIt(z, data) {
      assert frame[5..5 + |data|] == data;
    }
  }

  // ---- the codec's optional layer -------------------------------------------

  datatype CompressionConfig = CompressionConfig(enable: bool, minSize: int, zstd: Zstd)

  /** compressPayload: the frame if it is shorter than the data, otherwise the data. */
  function CompressPayload(c: CompressionConfig, data: Bytes): Bytes {
    if !c.enable || |data| < c.minSize then data
    else
      var frame := CompressWithHeader(c.zstd, data);
      if |frame| >= |data| then data else frame
  }

  /** The bytes Encode carries for a payload. */
  function Body(c: CompressionConfig, payload: Bytes): Bytes {
    if c.enable && |payload| > 0 then CompressPayload(c, payload) else payload
  }

  predicate Shrinks(c: CompressionConfig, payload: Bytes) {
    |Body(c, payload)| < |payload|
  }

  function DecompressPayload(c: CompressionConfig, data: Bytes): Unframed {
    if c.enable then DecompressWithHeader(c.zstd, data) else Data(data)
  }

  /** A body shorter than its payload is a compressed frame, never a stored one; any other body is the payload. */
  lemma ShorterBodyIsCompressedFrame(c: CompressionConfig, payload: Bytes)
    ensures Shrinks(c, payload) <==> Body(c, payload) != payload
    ensures Shrinks(c, payload) ==>
              Body(c, payload) == Frame(1, |payload|, c.zstd.encodeAll(payload)) && WorthIt(c.zstd, payload)
  {
  }

  /**
   A payload is carried compressed exactly if compression is on, it reaches both
   size limits, and its compressed form has fewer than nine tenths of its bytes;
   what is carried then is byte 1, the size in four bytes, the compressed form.
   */
  lemma CompressedIff(c: CompressionConfig, payload: Bytes)
    ensures var packed := c.zstd.encodeAll(payload);
            var body := Body(c, payload);
            if c.enable && |payload| >= c.minSize && |payload| >= 64 && |packed| < |payload| * 9 / 10 then
              && |body| == 5 + |packed| < |payload| && body[0] == 1 && body[5..] == packed
              && (|payload| < U32 ==> Get32(body[1..]) == |payload|)
            else body == payload
  {
    var packed := c.zstd.encodeAll(payload);
    if WorthIt(c.zstd, payload) {
      var frame := Frame(1, |payload|, packed);
      assert frame[5..] == packed;
      assert frame[1..] == Put32(|payload|) + packed;
      if |payload| < U32 {
        Get32Put32(|payload|, packed);
      }
    }
  }

  /** A flagged body decompresses to the payload iff compression is enabled at the decoder. */
  lemma BodyRestoredIffEnabled(sender: CompressionConfig, receiver: CompressionConfig, payload: Bytes)
    requires sender.zstd == receiver.zstd && Inverse(sender.zstd) && |payload| < U32
    requires Shrinks(sender, payload)
    ensures DecompressPayload(receiver, Body(sender, payload)) == Data(payload) <==> receiver.enable
  {
    FrameRoundTrip(sender.zstd, payload);
  }

  class Compressor {
    const zstd: Zstd

    constructor (zstd: Zstd)
      ensures this.zstd == zstd
    {
      this.zstd := zstd;
    }

    method Compress(data: Bytes) returns (result: array<byte>)
      ensures fresh(result) && result[..] == CompressWithHeader(zstd, data)
    {
      if |data| < FRAME_MIN_SIZE {
        result := Fill(0, |data|, data);
        return;
      }
      var compressed := zstd.encodeAll(data);
      if |compressed| >= |data| * 9 / 10 {
        result := Fill(0, |data|, data);
        return;
      }
      result := Fill(1, |data|, compressed);
    }

    method Fill(flag: byte, size: nat, body: Bytes) returns (result: array<byte>)
      ensures fresh(result) && result[..] == Frame(flag, size, body)
    {
      result := new byte[5 + |body|];
      var off := AppendByte(result, 0, flag);
      off := Append32(result, off, size);
      off := AppendBytes(result, off, body);
      assert result[..] == result[..off];
    }

    method Decompress(data: Bytes) returns (r: Unframed)
      ensures r == DecompressWithHeader(zstd, data)
    {
      if |data| < 5 {
        return Data(data);
      }
      var originalSize := Get32(data[1..]);
      if data[0] == 0 {
        if 5 + originalSize > |data| {
          return SliceOutOfRange;
        }
        return Data(data[5..5 + originalSize]);
      }
      var decompressed := zstd.decodeAll(data[5..]);
      r := if decompressed.Some? then Data(decompressed.value) else DecodeError;
    }
  }
}
