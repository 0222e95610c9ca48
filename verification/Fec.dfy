/** Forward error correction (fec.go): the encoder's blocks and the decoder's groups. */
module Fec {
  import opened Base
  import opened BigEndian
  import opened ErasureCode

  /** Longest payload that fits a shard behind its two length bytes. */
  const MAX_SHARD_PAYLOAD: int := SHARD_SIZE - 2

  /** [length: 2][payload, cut to fit][zeros] */
  function Shard(payload: Bytes): (s: Bytes)
    ensures |s| == SHARD_SIZE
  {
    var kept := payload[..Min(|payload|, MAX_SHARD_PAYLOAD)];
    Put16(|payload| % 0x1_0000) + kept + Zeros(MAX_SHARD_PAYLOAD - |kept|)
  }

  /** The payload the decoder takes out of a shard, if the length field is acceptable. */
  function PayloadOf(shard: Bytes): Option<Bytes> {
    if |shard| < 2 then None
    else
      var length := Get16(shard);
      if 0 < length <= MAX_SHARD_PAYLOAD && 2 + length <= |shard| then Some(shard[2..2 + length]) else None
  }

  /** A shard gives its payload back exactly when the payload is neither empty nor longer than 1198 bytes. */
  lemma ShardRoundTrip(payload: Bytes)
    requires |payload| < 0x1_0000
    ensures PayloadOf(Shard(payload)) ==
              if 0 < |payload| <= MAX_SHARD_PAYLOAD then Some(payload) else None
  {
    var kept := payload[..Min(|payload|, MAX_SHARD_PAYLOAD)];
    var rest: Bytes := kept + Zeros(MAX_SHARD_PAYLOAD - |kept|);
    assert Shard(payload) == Put16(|payload|) + rest;
    Get16Put16(|payload|, rest);
    if 0 < |payload| <= MAX_SHARD_PAYLOAD {
      assert kept == payload;
      assert Shard(payload)[2..2 + |payload|] == payload;
    }
  }

  /** A shard byte by byte: the length in two bytes, up to 1198 bytes of payload, zeros up to 1200. */
  lemma ShardBytes(payload: Bytes, i: nat)
    requires i < 1200
    ensures |Shard(payload)| == 1200
    ensures Shard(payload)[i] ==
            if i == 0 then |payload| % 0x1_0000 / 256
            else if i == 1 then |payload| % 0x1_0000 % 256
            else if i - 2 < |payload| then payload[i - 2]
            else 0
  {
    assert |payload| % 0x1_0000 / 256 < 256;
  }

  // ---- encoder ------------------------------------------------------------

  datatype Parity = Parity(start: nat, index: nat, shard: Bytes)

  datatype Encoder = Encoder(code: Code, shards: seq<Bytes>, dataCount: nat, startSeq: nat, timer: bool)

  function NewEncoder(code: Code): Encoder {
    Encoder(code, [], 0, 0, false)
  }

  function ParityPackets(start: nat, shards: seq<Bytes>): seq<Parity> {
    seq(|shards|, i requires 0 <= i < |shards| => Parity(start, i, shards[i]))
  }

  /** flushLocked: the state afterwards and the parity packets sent. */
  function Flushed(e: Encoder): (Encoder, seq<Parity>) {
    if e.dataCount == 0 then (e, [])
    else
      var idle := e.(dataCount := 0, timer := false);
      if |e.shards| < e.code.k + e.code.m then (idle, [])
      else
        var data := e.shards[..e.code.k];
        var parity := e.code.parity(data);
        (idle.(shards := Codeword(e.code, data)), ParityPackets(e.startSeq, parity))
  }

  /** The block AddDataPacket starts with: the current one, or a fresh one of zeros. */
  function Begun(e: Encoder, n: nat): Encoder {
    if e.dataCount == 0 then
      e.(startSeq := n, shards := seq(e.code.k + e.code.m, _ => Zeros(SHARD_SIZE)), timer := true)
    else e
  }

  function PacketAdded(e: Encoder, n: nat, payload: Bytes): (Encoder, seq<Parity>) {
    var b := Begun(e, n);
    if b.dataCount >= |b.shards| then (b, [])
    else
      var f := b.(shards := b.shards[b.dataCount := Shard(payload)], dataCount := b.dataCount + 1);
      if f.dataCount >= f.code.k then Flushed(f) else (f, [])
  }

  // ---- decoder ------------------------------------------------------------

  datatype Group = Group(start: nat, shards: Partial, received: nat)

  datatype Decoder = Decoder(code: Code, groups: map<nat, Group>)

  datatype Recovered = Recovered(n: nat, payload: Bytes)

  function NewGroup(code: Code, start: nat): Group {
    Group(start, seq(code.k + code.m, _ => None), 0)
  }

  function GroupAt(d: Decoder, start: nat): Group {
    if start in d.groups then d.groups[start] else NewGroup(d.code, start)
  }

  predicate MissesData(code: Code, shards: Partial) {
    exists i :: 0 <= i < code.k && i < |shards| && shards[i].None?
  }

  /** Payloads of the first `k` shards of a rebuilt codeword, with their numbers. */
  function Emissions(start: nat, codeword: seq<Bytes>, k: nat): seq<Recovered> {
    if k == 0 || k > |codeword| then []
    else
      Emissions(start, codeword, k - 1) +
      match PayloadOf(codeword[k - 1])
      case Some(p) => [Recovered(start + k - 1, p)]
      case None => []
  }

  /** What checkRecover sends to onRecover for a group that has enough shards. */
  function Rebuild(code: Code, g: Group): seq<Recovered> {
    if !MissesData(code, g.shards) then []
    else match code.reconstruct(g.shards)
         case Some(codeword) => Emissions(g.start, codeword, code.k)
         case None => []
  }

  /** checkRecover on the stored group. */
  function Checked(d: Decoder, g: Group): (Decoder, seq<Recovered>) {
    if g.received >= d.code.k then
      (d.(groups := d.groups - {g.start}), Rebuild(d.code, g))
    else (d, [])
  }

  /** Put a shard into a free place of a group; otherwise only make sure that the group exists. */
  function ShardAdded(d: Decoder, start: nat, index: nat, shard: Bytes): (Decoder, seq<Recovered>) {
    var g := GroupAt(d, start);
    if index < |g.shards| && g.shards[index].None? then
      var g' := g.(shards := g.shards[index := Some(shard)], received := g.received + 1);
      Checked(d.(groups := d.groups[start := g']), g')
    else (d.(groups := d.groups[start := g]), [])
  }

  function DataAdded(d: Decoder, n: nat, payload: Bytes): (Decoder, seq<Recovered>)
    requires d.code.k > 0
  {
    ShardAdded(d, n / d.code.k * d.code.k, n % d.code.k, Shard(payload))
  }

  function ParityAdded(d: Decoder, p: Parity): (Decoder, seq<Recovered>) {
    ShardAdded(d, p.start, d.code.k + p.index, p.shard)
  }

  /** The 200 ms timer of a group, or a stale one of an earlier group with the same start. */
  function Expired(d: Decoder, start: nat): Decoder {
    d.(groups := d.groups - {start})
  }

  // ---- the objects ----------------------------------------------------------

  class FecEncoder {
    var code: Code
    var shards: seq<Bytes>
    var dataCount: nat
    var startSeq: nat
    var timer: bool

    function View(): Encoder
      reads this
    {
      Encoder(code, shards, dataCount, startSeq, timer)
    }

    constructor (code: Code)
      ensures View() == NewEncoder(code)
    {
      this.code, shards, dataCount, startSeq, timer := code, [], 0, 0, false;
    }

    method FlushLocked() returns (sent: seq<Parity>)
      modifies this
      ensures (View(), sent) == Flushed(old(View()))
    {
      sent := [];
      if dataCount == 0 {
        return;
      }
      timer := false;
      if |shards| < code.k + code.m {
        dataCount := 0;
        return;
      }
      var parity := code.parity(shards[..code.k]);
      shards := shards[..code.k] + parity;
      for i := 0 to |parity|
        invariant sent == ParityPackets(startSeq, parity)[..i]
      {
        sent := sent + [Parity(startSeq, i, parity[i])];
      }
      assert sent == ParityPackets(startSeq, parity);
      dataCount := 0;
    }

    /** The block buffer always holds k + m shards while a block is open. */
    method Add(n: nat, payload: Bytes) returns (sent: seq<Parity>)
      requires code.k > 0 && (dataCount > 0 ==> dataCount < code.k && |shards| == code.k + code.m)
      modifies this
      ensures (View(), sent) == PacketAdded(old(View()), n, payload)
      ensures dataCount > 0 ==> dataCount < code.k && |shards| == code.k + code.m
    {
      if dataCount == 0 {
        startSeq := n;
        shards := seq(code.k + code.m, _ => Zeros(SHARD_SIZE));
        timer := true;
      }
      shards := shards[dataCount := Shard(payload)];
      dataCount := dataCount + 1;
      sent := [];
      if dataCount >= code.k {
        sent := FlushLocked();
      }
    }

    /** configLoop: another shard count starts over; a rejected one changes nothing. */
    method Reconfigure(k: nat, m: nat, made: Option<Code>)
      requires made.Some? ==> made.value.k == k && made.value.m == m
      modifies this
      ensures View() == if (k != old(code.k) || m != old(code.m)) && made.Some?
                        then old(View()).(code := made.value, dataCount := 0, shards := [])
                        else old(View())
    {
      if k != code.k || m != code.m {
        if made.Some? {
          code := made.value;
          dataCount := 0;
          shards := [];
        }
      }
    }
  }

  class FecDecoder {
    var code: Code
    var groups: map<nat, Group>

    function View(): Decoder
      reads this
    {
      Decoder(code, groups)
    }

    constructor (code: Code)
      ensures View() == Decoder(code, map[])
    {
      this.code, groups := code, map[];
    }

    /** configLoop: another shard count discards all groups; a rejected one changes nothing. */
    method Reconfigure(k: nat, m: nat, made: Option<Code>)
      requires made.Some? ==> made.value.k == k && made.value.m == m
      modifies this
      ensures View() == if (k != old(code.k) || m != old(code.m)) && made.Some? then Decoder(made.value, map[])
                        else old(View())
    {
      if k != code.k || m != code.m {
        if made.Some? {
          code := made.value;
          groups := map[];
        }
      }
    }

    method CheckRecover(g: Group) returns (out: seq<Recovered>)
      modifies this`groups
      ensures (View(), out) == Checked(old(View()), g)
    {
      out := [];
      if g.received >= code.k {
        var missingData := false;
        var i := 0;
        while i < code.k && i < |g.shards| && !missingData
          invariant 0 <= i <= code.k && i <= |g.shards|
          invariant missingData <==> exists j :: 0 <= j < i && g.shards[j].None?
        {
          missingData := g.shards[i].None?;
          i := i + 1;
        }
        if missingData {
          var rebuilt := code.reconstruct(g.shards);
          if rebuilt.Some? {
            out := Emit(g.start, rebuilt.value);
          }
        }
        groups := groups - {g.start};
      }
    }

    method Emit(start: nat, codeword: seq<Bytes>) returns (out: seq<Recovered>)
      ensures out == Emissions(start, codeword, code.k)
    {
      out := [];
      if code.k > |codeword| {
        return;
      }
      for i := 0 to code.k
        invariant out == Emissions(start, codeword, i)
      {
        var payload := PayloadOf(codeword[i]);
        if payload.Some? {
          out := out + [Recovered(start + i, payload.value)];
        }
      }
    }

    method Add(start: nat, index: nat, shard: Bytes) returns (out: seq<Recovered>)
      modifies this`groups
      ensures (View(), out) == ShardAdded(old(View()), start, index, shard)
    {
      out := [];
      if start !in groups {
        groups := groups[start := NewGroup(code, start)];
      }
      var g := groups[start];
      if index < |g.shards| && g.shards[index].None? {
        g := g.(shards := g.shards[index := Some(shard)], received := g.received + 1);
        groups := groups[start := g];
        assert groups == old(groups)[start := g];
        out := CheckRecover(g);
      } else {
        assert groups == old(groups)[start := g];
      }
    }

    method AddData(n: nat, payload: Bytes) returns (out: seq<Recovered>)
      requires code.k > 0
      modifies this`groups
      ensures (View(), out) == DataAdded(old(View()), n, payload)
    {
      out := Add(n / code.k * code.k, n % code.k, Shard(payload));
    }

    method AddParity(p: Parity) returns (out: seq<Recovered>)
      modifies this`groups
      ensures (View(), out) == ParityAdded(old(View()), p)
    {
      out := Add(p.start, code.k + p.index, p.shard);
    }

    method Expire(start: nat)
      modifies this`groups
      ensures View() == Expired(old(View()), start) && groups == old(groups) - {start}
    {
      groups := groups - {start};
    }
  }
}
