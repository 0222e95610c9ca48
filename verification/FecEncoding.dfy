/**
 What the encoder sends when its flush timer does not fire: the parity of
 every k packets in a row, whatever their numbers; and when a flush does harm.
 */
module FecEncoding {
  import opened Base
  import opened ErasureCode
  import opened Fec

  /** A packet as AddDataPacket gets it. */
  datatype Numbered = Numbered(n: nat, payload: Bytes)

  /** Feed packets to a fresh encoder whose flush timer never fires. */
  function EncodeAll(code: Code, packets: seq<Numbered>): (Encoder, seq<Parity>) {
    if packets == [] then (NewEncoder(code), [])
    else
      var last := packets[|packets| - 1];
      var (e, sent) := EncodeAll(code, packets[..|packets| - 1]);
      var (e', more) := PacketAdded(e, last.n, last.payload);
      (e', sent + more)
  }

  /** The shards of the `k` packets from position `a` on. */
  function BlockShards(packets: seq<Numbered>, a: nat, k: nat): seq<Bytes>
    requires a + k <= |packets|
  {
    seq(k, i requires 0 <= i < k => Shard(packets[a + i].payload))
  }

  ghost predicate Aligned(a: nat, k: nat) {
    exists j: nat :: a == j * k
  }

  /** The encoder's blocks: `k` packets from a position that is a multiple of `k`. */
  ghost predicate IsBlockAt(packets: seq<Numbered>, a: nat, k: nat) {
    Aligned(a, k) && a + k <= |packets|
  }

  /** A parity packet of the block at position `a`; it bears the number of the block's first packet. */
  ghost predicate ParityOf(code: Code, packets: seq<Numbered>, a: nat, p: Parity) {
    && code.k > 0 && IsBlockAt(packets, a, code.k) && p.start == packets[a].n && p.index < code.m
    && var parity := code.parity(BlockShards(packets, a, code.k));
       p.index < |parity| && p.shard == parity[p.index]
  }

  ghost predicate FullBlockParity(code: Code, packets: seq<Numbered>, p: Parity) {
    exists a: nat :: ParityOf(code, packets, a, p)
  }

  ghost predicate MidBlock(code: Code, packets: seq<Numbered>, e: Encoder) {
    && e.code == code && e.dataCount < code.k && e.dataCount <= |packets|
    && Aligned(|packets| - e.dataCount, code.k)
    && (e.dataCount > 0 ==>
          var a := |packets| - e.dataCount;
          && e.startSeq == packets[a].n
          && IsBlock(code.k + code.m, e.shards)
          && forall i :: 0 <= i < e.dataCount ==> e.shards[i] == Shard(packets[a + i].payload))
  }

  lemma AlignedNext(start: nat, k: nat)
    requires Aligned(start, k)
    ensures Aligned(start + k, k)
  {
    var j: nat :| start == j * k;
    assert start + k == (j + 1) * k;
  }

  /** Two multiples of `k` that are less than `k` apart are equal. */
  lemma AlignedUnique(a: nat, b: nat, k: nat)
    requires k > 0 && Aligned(a, k) && Aligned(b, k) && a <= b < a + k
    ensures a == b
  {
    var i: nat :| a == i * k;
    var j: nat :| b == j * k;
    if j > i {
      MultiplesApart(i, j, k);
    } else if j < i {
      MultiplesApart(j, i, k);
    }
  }

  lemma MultiplesApart(i: nat, j: nat, k: nat)
    requires i < j
    ensures i * k + k <= j * k
  {
    assert j * k == i * k + k + (j - i - 1) * k;
    NonNegative(j - i - 1, k);
  }

  lemma NonNegative(a: nat, b: nat)
    ensures a * b >= 0
  {
  }

  lemma ExtendKeepsParity(code: Code, packets: seq<Numbered>, last: Numbered, a: nat, p: Parity)
    requires a + code.k <= |packets|
    ensures ParityOf(code, packets, a, p) <==> ParityOf(code, packets + [last], a, p)
  {
    if code.k > 0 {
      assert BlockShards(packets, a, code.k) == BlockShards(packets + [last], a, code.k);
    }
  }

  lemma PacketBegins(code: Code, packets: seq<Numbered>, e: Encoder, last: Numbered)
    requires code.k > 0 && MidBlock(code, packets, e)
    ensures var b, a := Begun(e, last.n), |packets| - e.dataCount;
            && b.startSeq == (packets + [last])[a].n && b.code == code && b.dataCount == e.dataCount
            && IsBlock(code.k + code.m, b.shards)
            && forall i :: 0 <= i < b.dataCount ==> b.shards[i] == Shard(packets[a + i].payload)
  {
  }

  /** One more packet: either the block grows, or exactly the parity of its now complete block is sent. */
  lemma PacketKeepsBlock(code: Code, packets: seq<Numbered>, e: Encoder, last: Numbered)
    requires Mds(code) && MidBlock(code, packets, e)
    ensures var (e', more) := PacketAdded(e, last.n, last.payload);
            var packets' := packets + [last];
            && MidBlock(code, packets', e')
            && forall p :: p in more <==> exists a: nat :: ParityOf(code, packets', a, p) && a + code.k > |packets|
  {
    var packets', a := packets + [last], |packets| - e.dataCount;
    PacketBegins(code, packets, e, last);
    if e.dataCount + 1 == code.k {
      PacketCompletes(code, packets, e, last);
    } else {
      forall b: nat, p | ParityOf(code, packets', b, p) && b + code.k > |packets| ensures false {
        LastBlockUnique(code, packets', a, b);
      }
    }
  }

  /** Two blocks that both reach beyond all but the last packet are the same. */
  lemma LastBlockUnique(code: Code, packets: seq<Numbered>, a: nat, b: nat)
    requires code.k > 0 && Aligned(a, code.k) && IsBlockAt(packets, b, code.k)
    requires a < |packets| < a + code.k + 1 && b + code.k > |packets| - 1
    ensures a == b
  {
    if a <= b {
      AlignedUnique(a, b, code.k);
    } else {
      AlignedUnique(b, a, code.k);
    }
  }

  lemma PacketCompletes(code: Code, packets: seq<Numbered>, e: Encoder, last: Numbered)
    requires Mds(code) && MidBlock(code, packets, e) && e.dataCount + 1 == code.k
    ensures var (e', more) := PacketAdded(e, last.n, last.payload);
            var packets' := packets + [last];
            && MidBlock(code, packets', e')
            && forall p :: p in more <==> exists a: nat :: ParityOf(code, packets', a, p) && a + code.k > |packets|
  {
    var packets', a := packets + [last], |packets| - e.dataCount;
    var b := Begun(e, last.n);
    PacketBegins(code, packets, e, last);
    var shards := b.shards[b.dataCount := Shard(last.payload)];
    var (e', more) := PacketAdded(e, last.n, last.payload);
    assert shards[..code.k] == BlockShards(packets', a, code.k);
    assert IsBlock(code.k, shards[..code.k]);
    AlignedNext(a, code.k);
    var parity := code.parity(shards[..code.k]);
    assert more == ParityPackets(packets'[a].n, parity);
    forall p ensures p in more <==> exists c: nat :: ParityOf(code, packets', c, p) && c + code.k > |packets| {
      if p in more {
        assert ParityOf(code, packets', a, p) && a + code.k > |packets|;
      }
      if c: nat :| ParityOf(code, packets', c, p) && c + code.k > |packets| {
        LastBlockUnique(code, packets', a, c);
        assert p == more[p.index];
      }
    }
  }

  /** With no flush and a fixed configuration, the encoder sends the parity of all its blocks and nothing else. */
  lemma {:induction false} EncoderSendsFullBlocks(code: Code, packets: seq<Numbered>)
    requires Mds(code)
    ensures var (e, sent) := EncodeAll(code, packets);
            && MidBlock(code, packets, e)
            && forall p :: p in sent <==> FullBlockParity(code, packets, p)
  {
    if packets == [] {
      assert 0 == 0 * code.k;
    } else {
      var n := |packets| - 1;
      var init, last := packets[..n], packets[n];
      var (e, sent) := EncodeAll(code, init);
      var (e', more) := PacketAdded(e, last.n, last.payload);
      EncoderSendsFullBlocks(code, init);
      PacketKeepsBlock(code, init, e, last);
      assert packets == init + [last];
      forall p ensures p in sent + more <==> FullBlockParity(code, packets, p) {
        ParityOldOrNew(code, init, last, p);
      }
    }
  }

  /** The flush timer is armed exactly while a block is partly filled, and a flush disarms it. */
  lemma {:induction false} TimerArmedIff(code: Code, packets: seq<Numbered>)
    requires code.k > 0
    ensures var e := EncodeAll(code, packets).0;
            && (e.timer <==> e.dataCount > 0) && e.dataCount < code.k && e.code == code
            && (e.dataCount > 0 ==> |e.shards| == code.k + code.m)
            && !Flushed(e).0.timer && Flushed(e).0.dataCount == 0
  {
    if packets != [] {
      TimerArmedIff(code, packets[..|packets| - 1]);
    }
  }

  lemma ParityOldOrNew(code: Code, init: seq<Numbered>, last: Numbered, p: Parity)
    ensures FullBlockParity(code, init + [last], p) <==>
              || FullBlockParity(code, init, p)
              || (exists a: nat :: ParityOf(code, init + [last], a, p) && a + code.k > |init|)
  {
    if a: nat :| ParityOf(code, init, a, p) {
      ExtendKeepsParity(code, init, last, a, p);
    }
    if a: nat :| ParityOf(code, init + [last], a, p) && a + code.k <= |init| {
      ExtendKeepsParity(code, init, last, a, p);
    }
  }

  // ---- a partial block ----------------------------------------------------------

  function Somes(data: seq<Bytes>): Partial {
    seq(|data|, i requires 0 <= i < |data| => Some(data[i]))
  }

  lemma {:induction false} AllPresent(data: seq<Bytes>)
    ensures Present(Somes(data)) == |data|
  {
    if data != [] {
      assert Somes(data)[1..] == Somes(data[1..]);
      AllPresent(data[1..]);
    }
  }

  /** Every data shard but number `d`, and the first parity shard. */
  function AllBut(data: seq<Bytes>, d: nat, parity: Bytes, m: nat): Partial
    requires d < |data| && m > 0
  {
    Somes(data)[d := None] + ([Some(parity)] + seq(m - 1, _ => None))
  }

  lemma AllButSuffices(data: seq<Bytes>, d: nat, parity: Bytes, m: nat)
    requires d < |data| && m > 0
    ensures Present(AllBut(data, d, parity, m)) == |data|
  {
    var rest := Somes(data)[d := None];
    AllPresent(data);
    PresentSet(rest, d, data[d]);
    assert rest[d := Some(data[d])] == Somes(data);
    PresentConcat(rest, [Some(parity)] + seq(m - 1, _ => None));
    PresentConcat([Some(parity)], seq(m - 1, _ => None));
    PresentOne(Some(parity));
    NonePresent(m - 1);
  }

  /** Blocks that differ in one shard only cannot share their first parity shard. */
  lemma ParityTellsShard(code: Code, a: seq<Bytes>, d: nat, shard: Bytes)
    requires Mds(code) && code.m > 0 && IsBlock(code.k, a) && d < code.k && |shard| == SHARD_SIZE
    requires code.parity(a[d := shard]) != [] && code.parity(a) != []
    requires code.parity(a)[0] == code.parity(a[d := shard])[0]
    ensures a[d] == shard
  {
    var b := a[d := shard];
    var shards := AllBut(a, d, code.parity(a)[0], code.m);
    AllButSuffices(a, d, code.parity(a)[0], code.m);
    assert IsBlock(code.k, b);
    assert Agrees(shards, Codeword(code, a));
    assert Agrees(shards, Codeword(code, b));
    assert Codeword(code, a)[d] == Codeword(code, b)[d];
  }

  /** Packets that complete a block: `first`, then empty ones. */
  function Completion(first: Bytes, count: nat): seq<Numbered>
    requires count > 0
  {
    [Numbered(0, first)] + seq(count - 1, _ => Numbered(0, []))
  }

  lemma CompletionsDiffer(packets: seq<Numbered>, start: nat, k: nat)
    requires start <= |packets| < start + k
    ensures var rest := start + k - |packets|;
            var a, b := packets + Completion([], rest), packets + Completion([1], rest);
            && |a| == |b| == start + k
            && BlockShards(b, start, k) == BlockShards(a, start, k)[|packets| - start := Shard([1])]
            && BlockShards(a, start, k)[|packets| - start] != Shard([1])
  {
    assert Shard([])[1] == 0 && Shard([1])[1] == 1;
  }

  /** Position of the first packet of the open block. */
  function BlockStart(packets: seq<Numbered>, e: Encoder): nat
    requires e.dataCount <= |packets|
  {
    |packets| - e.dataCount
  }

  /** Whether the packets a flush sends now are parity of the open block as `later` will complete it. */
  ghost predicate FlushTrueFor(code: Code, packets: seq<Numbered>, later: seq<Numbered>, e: Encoder)
    requires e.dataCount <= |packets|
  {
    forall p <- Flushed(e).1 :: ParityOf(code, packets + later, BlockStart(packets, e), p)
  }

  lemma FlushMatches(code: Code, packets: seq<Numbered>, e: Encoder, later: seq<Numbered>)
    requires Mds(code) && code.m > 0 && MidBlock(code, packets, e) && e.dataCount > 0
    requires |later| == code.k - e.dataCount && FlushTrueFor(code, packets, later, e)
    ensures var early := code.parity(e.shards[..code.k]);
            var parity := code.parity(BlockShards(packets + later, BlockStart(packets, e), code.k));
            early != [] && parity != [] && early[0] == parity[0]
  {
    assert IsBlock(code.k, e.shards[..code.k]);
    var early := code.parity(e.shards[..code.k]);
    assert ParityPackets(e.startSeq, early)[0] in Flushed(e).1;
  }

  lemma BlockIsBlock(packets: seq<Numbered>, a: nat, k: nat)
    requires a + k <= |packets|
    ensures IsBlock(k, BlockShards(packets, a, k))
  {
    forall i | 0 <= i < k ensures |BlockShards(packets, a, k)[i]| == SHARD_SIZE {
      assert BlockShards(packets, a, k)[i] == Shard(packets[a + i].payload);
    }
  }

  /** The parity flushed early is not that of one of two completions. */
  lemma EarlyParityIsWrong(code: Code, packets: seq<Numbered>, e: Encoder) returns (later: seq<Numbered>)
    requires Mds(code) && code.m > 0 && MidBlock(code, packets, e) && e.dataCount > 0
    ensures |later| == code.k - e.dataCount
    ensures var early, parity := code.parity(e.shards[..code.k]),
                                 code.parity(BlockShards(packets + later, BlockStart(packets, e), code.k));
            early != [] && parity != [] && early[0] != parity[0] && |early[0]| == SHARD_SIZE
  {
    var a, rest := BlockStart(packets, e), code.k - e.dataCount;
    var one, other := Completion([], rest), Completion([1], rest);
    var block, changed := BlockShards(packets + one, a, code.k), BlockShards(packets + other, a, code.k);
    CompletionsDiffer(packets, a, code.k);
    BlockIsBlock(packets + one, a, code.k);
    BlockIsBlock(packets + other, a, code.k);
    assert IsBlock(code.k, e.shards[..code.k]);
    assert changed == block[e.dataCount := Shard([1])] && block[e.dataCount] != Shard([1]);
    if code.parity(block)[0] == code.parity(changed)[0] {
      ParityTellsShard(code, block, e.dataCount, Shard([1]));
    }
    later := if code.parity(e.shards[..code.k])[0] != code.parity(block)[0] then one else other;
  }

  /**
   The timer's flush is harmless, however the block is completed later, exactly
   when there is nothing to flush. With any code that can recover anything, the
   parity of a partly filled block is wrong for some completion.
   */
  lemma EarlyFlushHarmlessIff(code: Code, packets: seq<Numbered>, e: Encoder)
    requires Mds(code) && code.m > 0 && MidBlock(code, packets, e)
    ensures (forall later: seq<Numbered> ::
               |later| == code.k - e.dataCount ==> FlushTrueFor(code, packets, later, e)) <==> e.dataCount == 0
  {
    if e.dataCount > 0 {
      var later := EarlyParityIsWrong(code, packets, e);
      if FlushTrueFor(code, packets, later, e) {
        FlushMatches(code, packets, e, later);
      }
    }
  }

  /** With one wrong parity shard in place of data shard `d`, another shard is rebuilt for it. */
  lemma WrongParityMisrebuilds(code: Code, block: seq<Bytes>, d: nat, wrong: Bytes)
    requires Total(code) && code.m > 0 && IsBlock(code.k, block) && d < code.k
    requires |wrong| == SHARD_SIZE && code.parity(block) != [] && wrong != code.parity(block)[0]
    ensures var rebuilt := code.reconstruct(AllBut(block, d, wrong, code.m));
            && rebuilt.Some? && d < |rebuilt.value| && rebuilt.value[d] != block[d]
            && forall i :: 0 <= i < code.k && i != d ==> i < |rebuilt.value| && rebuilt.value[i] == block[i]
  {
    var shards := AllBut(block, d, wrong, code.m);
    AllButSuffices(block, d, wrong, code.m);
    assert HasCodeword(code, shards) by {
      assert IsPartial(code, shards);
    }
    var data :| IsBlock(code.k, data) && Agrees(shards, Codeword(code, data));
    assert code.reconstruct(shards) == Some(Codeword(code, data));
    assert shards[code.k] == Some(wrong);
    forall i | 0 <= i < code.k && i != d ensures data[i] == block[i] {
      assert shards[i] == Some(block[i]);
    }
    assert data[d] == block[d] ==> data == block;
  }

  /**
   What a flush of a partly filled block does to a decoder, for every code of
   which any `k` shards fit some codeword: for some way in which the block is
   completed, and whichever of its packets is lost, the decoder that gets the
   others and the first parity shard flushed early rebuilds a shard that is not
   the lost packet's.
   */
  lemma EarlyFlushMisrebuilds(code: Code, packets: seq<Numbered>, e: Encoder)
    requires Total(code) && code.m > 0 && MidBlock(code, packets, e) && e.dataCount > 0
    ensures exists later: seq<Numbered> :: |later| == code.k - e.dataCount && Misrebuilt(code, packets, e, later)
  {
    var later := EarlyParityIsWrong(code, packets, e);
    var a, early := BlockStart(packets, e), code.parity(e.shards[..code.k]);
    var block := BlockShards(packets + later, a, code.k);
    BlockIsBlock(packets + later, a, code.k);
    assert ParityPackets(e.startSeq, early)[0] == Parity(e.startSeq, 0, early[0]);
    forall d | 0 <= d < code.k ensures RebuildsAnother(code, block, d, early[0]) {
      WrongParityMisrebuilds(code, block, d, early[0]);
    }
    assert Misrebuilt(code, packets, e, later);
  }

  /**
   The first parity packet flushed now rebuilds a wrong shard for every packet
   of the block as `later` completes it.
   */
  ghost predicate Misrebuilt(code: Code, packets: seq<Numbered>, e: Encoder, later: seq<Numbered>)
    requires code.m > 0 && e.dataCount <= |packets|
  {
    && BlockStart(packets, e) + code.k <= |packets + later| && Flushed(e).1 != []
    && var block, first := BlockShards(packets + later, BlockStart(packets, e), code.k), Flushed(e).1[0];
       && first.start == e.startSeq && first.index == 0
       && forall d :: 0 <= d < code.k ==> RebuildsAnother(code, block, d, first.shard)
  }

  ghost predicate RebuildsAnother(code: Code, block: seq<Bytes>, d: nat, parity: Bytes)
    requires code.m > 0 && d < |block|
  {
    var rebuilt := code.reconstruct(AllBut(block, d, parity, code.m));
    rebuilt.Some? && d < |rebuilt.value| && rebuilt.value[d] != block[d]
  }

  /**
   What a decoder makes of it, for two data shards and one parity shard: the flush
   timer fires after packet 0, so its parity is computed with an empty second
   shard. The decoder then gets packet 1 and that parity, and rebuilds packet 0
   as 255 bytes that were never submitted.
   */
  lemma PartialFlushCorrupts()
    ensures exists r <- ParityAdded(AfterPacketOne(Additive(2)), ParityOfPacketZero()).1 ::
              r.n == 0 && |r.payload| == 255
    ensures Flushed(PacketAdded(NewEncoder(Additive(2)), 0, [7]).0).1 == [ParityOfPacketZero()]
  {
    PartialBlockParity();
    OnePacketStored();
    var shards: Partial := [None, Some(Shard([9, 9])), Some(ParityOfPacketZero().shard)];
    assert AfterPacketOne(Additive(2)).groups[0].shards[2 := Some(ParityOfPacketZero().shard)] == shards;
    assert ParityAdded(AfterPacketOne(Additive(2)), ParityOfPacketZero()).1
        == Rebuild(Additive(2), Group(0, shards, 2));
    GarbageRebuilt(shards);
  }

  /** The parity flushed when only packet 0 is in the block. */
  function ParityOfPacketZero(): Parity {
    Parity(0, 0, SumShard([Shard([7]), Zeros(SHARD_SIZE)]))
  }

  /** A fresh decoder that received packet 1. */
  function AfterPacketOne(code: Code): Decoder
    requires code.k > 0
  {
    DataAdded(Decoder(code, map[]), 1, [9, 9]).0
  }

  lemma PartialBlockParity()
    ensures Flushed(PacketAdded(NewEncoder(Additive(2)), 0, [7]).0).1 == [ParityOfPacketZero()]
  {
    var e := PacketAdded(NewEncoder(Additive(2)), 0, [7]).0;
    assert e.shards == [Shard([7]), Zeros(SHARD_SIZE), Zeros(SHARD_SIZE)];
    assert e.shards[..2] == [Shard([7]), Zeros(SHARD_SIZE)];
    assert Flushed(e).1 == ParityPackets(0, [SumShard([Shard([7]), Zeros(SHARD_SIZE)])]);
  }

  lemma OnePacketStored()
    ensures AfterPacketOne(Additive(2))
         == Decoder(Additive(2), map[0 := Group(0, [None, Some(Shard([9, 9])), None], 1)])
  {
    var g := NewGroup(Additive(2), 0);
    assert g.shards == [None, None, None];
    assert g.shards[1 := Some(Shard([9, 9]))] == [None, Some(Shard([9, 9])), None];
  }

  lemma GarbageRebuilt(shards: Partial)
    requires shards == [None, Some(Shard([9, 9])), Some(ParityOfPacketZero().shard)]
    ensures exists r <- Rebuild(Additive(2), Group(0, shards, 2)) :: r.n == 0 && |r.payload| == 255
  {
    var second, parity := Shard([9, 9]), ParityOfPacketZero().shard;
    assert shards[..2] == [None, Some(second)];
    assert Filled(shards[..2]) == [Zeros(SHARD_SIZE), second];
    var rebuilt := Subtract(parity, SumShard([Zeros(SHARD_SIZE), second]));
    assert FirstMissing(shards[..2]) == 0;
    assert [Zeros(SHARD_SIZE), second][0 := rebuilt] + [parity] == [rebuilt, second, parity];
    assert AdditiveReconstruct(2, shards) == Some([rebuilt, second, parity]);
    PairSum(Shard([7]), Zeros(SHARD_SIZE), 0);
    PairSum(Shard([7]), Zeros(SHARD_SIZE), 1);
    PairSum(Zeros(SHARD_SIZE), second, 0);
    PairSum(Zeros(SHARD_SIZE), second, 1);
    assert rebuilt[0] == 0 && rebuilt[1] == 255;
    var r := Recovered(0, rebuilt[2..257]);
    assert r in Emissions(0, [rebuilt, second, parity], 1);
    assert r in Emissions(0, [rebuilt, second, parity], 2);
    assert MissesData(Additive(2), shards);
  }

  lemma PairSum(a: Bytes, b: Bytes, j: nat)
    requires |a| == |b| == SHARD_SIZE && j < SHARD_SIZE
    ensures SumShard([a, b])[j] == (a[j] as int + b[j] as int) % 256
  {
    assert [a, b][1..] == [b] && [b][1..] == [];
    assert ColumnSum([b], j) == b[j];
  }
}
